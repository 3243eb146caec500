/** Merging configuration layers, and what a repository's own layer may change (crates/config). */
module SandboxConfig {
  import opened Basics
  import opened Approval
  import opened ApprovalRules

  datatype Mode = WorkspaceWrite | ReadOnly | DangerFullAccess

  function Latitude(m: Mode): nat {
    match m
    case ReadOnly => 0
    case WorkspaceWrite => 1
    case DangerFullAccess => 2
  }

  function Stricter(a: Mode, b: Mode): Mode {
    if Latitude(b) < Latitude(a) then b else a
  }

  // The stricter mode never does more than either, and is one of the two.
  lemma StricterIsLeast(a: Mode, b: Mode)
    ensures Latitude(Stricter(a, b)) <= Latitude(a) && Latitude(Stricter(a, b)) <= Latitude(b)
    ensures Stricter(a, b) == b <==> Latitude(b) <= Latitude(a)
  {
  }

  datatype BudgetsFile = BudgetsFile(
    connections: Option<nat>, headerMs: Option<nat>, connectMs: Option<nat>, idleMs: Option<nat>, pollMs: Option<nat>)

  const NO_BUDGETS := BudgetsFile(None, None, None, None, None)

  datatype Budgets = Budgets(connections: nat, headerMs: nat, connectMs: nat, idleMs: nat, pollMs: nat)

  /** What a layer says about the workspace-write sandbox; an unstated list is empty. */
  datatype Section = Section(
    launcher: Option<string>, ports: Option<seq<nat>>, budgets: BudgetsFile,
    autoApproveBash: Option<bool>, localBinding: Option<bool>, redirectCaches: Option<bool>, network: Option<bool>,
    allowedDomains: seq<string>, deniedDomains: seq<string>, writableRoots: seq<string>, denyRead: seq<string>)

  const NO_SECTION := Section(None, None, NO_BUDGETS, None, None, None, None, [], [], [], [])

  datatype Guardian = Guardian(enabled: Option<bool>, provider: Option<string>, model: Option<string>,
      effort: Option<string>)

  const NO_GUARDIAN := Guardian(None, None, None, None)

  datatype File = File(
    policy: Option<Policy>, rules: seq<string>, mode: Option<Mode>, section: Section, guardian: Guardian,
    memoryDir: Option<string>)

  const EMPTY := File(None, [], None, NO_SECTION, NO_GUARDIAN, None)

  datatype Source = Managed | User | Project | Inline

  datatype Layer = Layer(source: Source, file: File)

  /** Why a merge fails. */
  datatype Why =
    | ChoosesGuardian | ChoosesMemoryDir | LoosensPolicy | LoosensMode | ChoosesLauncher | GrantsPorts | SetsBudgets
    | GrantsDomains | GrantsBinding | EnablesCaches | SkipsBashApproval | GrantsNetwork | GrantsRoots
    | BadPorts | BadBudgets | BadPattern | ConflictingNetwork | EmptyRule

  const DEFAULT_POLICY := OnRequest
  const DEFAULT_MODE := WorkspaceWrite
  const DEFAULT_PORTS: seq<nat> := [80, 443]

  /** The check a repository's layer passes, against everything merged beneath it. */
  predicate AcceptsPolicy(current: Policy, asked: Policy) {
    !((current == OnRequest && asked != OnRequest) || (asked == Auto && current != Auto))
  }

  function CheckProject(file: File, beneath: File): Option<Why> {
    var s, b := file.section, beneath.section;
    if file.guardian.enabled == Some(true) || file.guardian.provider.Some? || file.guardian.model.Some?
        || file.guardian.effort.Some?
    then Some(ChoosesGuardian)
    else if file.memoryDir.Some? then Some(ChoosesMemoryDir)
    else if file.policy.Some? && !AcceptsPolicy(beneath.policy.GetOr(DEFAULT_POLICY), file.policy.value)
    then Some(LoosensPolicy)
    else if file.mode.Some? && Stricter(beneath.mode.GetOr(DEFAULT_MODE), file.mode.value) != file.mode.value
    then Some(LoosensMode)
    else if s.launcher.Some? then Some(ChoosesLauncher)
    else if s.ports.Some? && (exists port | port in s.ports.value :: port !in b.ports.GetOr(DEFAULT_PORTS))
    then Some(GrantsPorts)
    else if s.budgets != NO_BUDGETS then Some(SetsBudgets)
    else if s.allowedDomains != [] then Some(GrantsDomains)
    else if s.localBinding == Some(true) && !b.localBinding.GetOr(true) then Some(GrantsBinding)
    else if s.redirectCaches == Some(true) && !b.redirectCaches.GetOr(true) then Some(EnablesCaches)
    else if s.autoApproveBash == Some(true) && !b.autoApproveBash.GetOr(true) then Some(SkipsBashApproval)
    else if s.network == Some(true) && !b.network.GetOr(false) then Some(GrantsNetwork)
    else if s.writableRoots != [] then Some(GrantsRoots)
    else None
  }

  function ResolveBudgets(b: BudgetsFile): Budgets {
    Budgets(b.connections.GetOr(32), b.headerMs.GetOr(10_000), b.connectMs.GetOr(10_000), b.idleMs.GetOr(60_000),
        b.pollMs.GetOr(10))
  }

  predicate PortsOk(ports: seq<nat>) {
    0 !in ports && forall i, j | 0 <= i < j < |ports| :: ports[i] != ports[j]
  }

  predicate BudgetsOk(b: Budgets) {
    0 < b.connections <= 256 && 0 < b.headerMs <= 3_600_000 && 0 < b.connectMs <= 3_600_000
    && 0 < b.idleMs <= 3_600_000 && 0 < b.pollMs <= 1_000
  }

  /** What is wrong with a layer's own section; `valid` is the DNS pattern syntax. */
  function LayerProblem(valid: string -> bool, s: Section): Option<Why> {
    if !PortsOk(s.ports.GetOr(DEFAULT_PORTS)) then Some(BadPorts)
    else if !BudgetsOk(ResolveBudgets(s.budgets)) then Some(BadBudgets)
    else if exists p | p in s.allowedDomains + s.deniedDomains :: !valid(p) then Some(BadPattern)
    else None
  }

  function MergeBudgets(b: BudgetsFile, over: BudgetsFile): BudgetsFile {
    BudgetsFile(over.connections.Or(b.connections), over.headerMs.Or(b.headerMs), over.connectMs.Or(b.connectMs),
                over.idleMs.Or(b.idleMs), over.pollMs.Or(b.pollMs))
  }

  function MergeSection(b: Section, over: Section): Section {
    Section(over.launcher.Or(b.launcher), over.ports.Or(b.ports), MergeBudgets(b.budgets, over.budgets),
            over.autoApproveBash.Or(b.autoApproveBash), over.localBinding.Or(b.localBinding),
            over.redirectCaches.Or(b.redirectCaches), over.network.Or(b.network),
            if over.allowedDomains != [] then over.allowedDomains else b.allowedDomains,
            b.deniedDomains + over.deniedDomains, b.writableRoots + over.writableRoots, b.denyRead + over.denyRead)
  }

  function MergeFile(m: File, over: File): File {
    File(over.policy.Or(m.policy), m.rules + over.rules, over.mode.Or(m.mode), MergeSection(m.section, over.section),
         Guardian(over.guardian.enabled.Or(m.guardian.enabled), over.guardian.provider.Or(m.guardian.provider),
                  over.guardian.model.Or(m.guardian.model), over.guardian.effort.Or(m.guardian.effort)),
         over.memoryDir.Or(m.memoryDir))
  }

  function MergeLayer(valid: string -> bool, m: File, layer: Layer): Result<File, Why> {
    var refused := if layer.source == Project then CheckProject(layer.file, m) else None;
    if refused.Some? then Err(refused.value)
    else
      match LayerProblem(valid, layer.file.section)
      case Some(why) => Err(why)
      case None => Ok(MergeFile(m, layer.file))
  }

  function MergeAll(valid: string -> bool, layers: seq<Layer>): Result<File, Why> {
    if layers == [] then Ok(EMPTY)
    else
      match MergeAll(valid, layers[..|layers| - 1])
      case Err(why) => Err(why)
      case Ok(m) => MergeLayer(valid, m, layers[|layers| - 1])
  }

  /** What a command is confined by, every setting decided. */
  datatype Sandbox = Sandbox(
    mode: Mode, launcher: Option<string>, autoApproveBash: bool, localBinding: bool, redirectCaches: bool,
    network: bool, allowedDomains: seq<string>, deniedDomains: seq<string>, ports: seq<nat>, budgets: Budgets,
    writableRoots: seq<string>, denyRead: seq<string>)

  function Resolve(m: File): Sandbox {
    var s := m.section;
    Sandbox(m.mode.GetOr(DEFAULT_MODE), s.launcher, s.autoApproveBash.GetOr(true), s.localBinding.GetOr(true),
            s.redirectCaches.GetOr(true), s.network.GetOr(false), s.allowedDomains, s.deniedDomains,
            s.ports.GetOr(DEFAULT_PORTS), ResolveBudgets(s.budgets), s.writableRoots, s.denyRead)
  }

  function SandboxProblem(valid: string -> bool, s: Sandbox): Option<Why> {
    if !PortsOk(s.ports) then Some(BadPorts)
    else if !BudgetsOk(s.budgets) then Some(BadBudgets)
    else if exists p | p in s.allowedDomains + s.deniedDomains :: !valid(p) then Some(BadPattern)
    else if s.network && (s.allowedDomains != [] || s.deniedDomains != []) then Some(ConflictingNetwork)
    else None
  }

  datatype Config = Config(policy: Policy, rules: seq<string>, sandbox: Sandbox, guardian: Guardian,
      memoryDir: Option<string>)

  function ConfigOf(valid: string -> bool, layers: seq<Layer>): Result<Config, Why> {
    match MergeAll(valid, layers)
    case Err(why) => Err(why)
    case Ok(m) =>
      if "" in TrimAll(m.rules) then Err(EmptyRule)
      else
        match SandboxProblem(valid, Resolve(m))
        case Some(why) => Err(why)
        case None => Ok(Config(m.policy.GetOr(DEFAULT_POLICY), Distinct(TrimAll(m.rules)), Resolve(m), m.guardian,
            m.memoryDir))
  }

  // ----- What a merge means -----

  /** What the last layer that states something, by `pick`, states. */
  function LastStated<T>(layers: seq<Layer>, pick: File -> Option<T>): Option<T> {
    if layers == [] then None
    else if pick(layers[|layers| - 1].file).Some? then pick(layers[|layers| - 1].file)
    else LastStated(layers[..|layers| - 1], pick)
  }

  /** What all layers list, in their order. */
  function Gathered<T>(layers: seq<Layer>, pick: File -> seq<T>): seq<T> {
    if layers == [] then [] else pick(layers[0].file) + Gathered(layers[1..], pick)
  }

  lemma {:induction false} GatheredOneMore<T>(layers: seq<Layer>, layer: Layer, pick: File -> seq<T>)
    ensures Gathered(layers + [layer], pick) == Gathered(layers, pick) + pick(layer.file)
  {
    if layers == [] {
      assert ([] + [layer])[1..] == [];
    } else {
      GatheredOneMore(layers[1..], layer, pick);
      assert (layers + [layer])[1..] == layers[1..] + [layer];
    }
  }

  lemma LastStatedOneMore<T>(layers: seq<Layer>, layer: Layer, pick: File -> Option<T>)
    ensures LastStated(layers + [layer], pick) == pick(layer.file).Or(LastStated(layers, pick))
  {
    assert (layers + [layer])[..|layers|] == layers;
  }

  function PolicyOf(f: File): Option<Policy> { f.policy }
  function ModeOf(f: File): Option<Mode> { f.mode }
  function LauncherOf(f: File): Option<string> { f.section.launcher }
  function PortsOf(f: File): Option<seq<nat>> { f.section.ports }
  function BashOf(f: File): Option<bool> { f.section.autoApproveBash }
  function BindingOf(f: File): Option<bool> { f.section.localBinding }
  function CachesOf(f: File): Option<bool> { f.section.redirectCaches }
  function NetworkOf(f: File): Option<bool> { f.section.network }

  function DomainsOf(f: File): Option<seq<string>> {
    if f.section.allowedDomains == [] then None else Some(f.section.allowedDomains)
  }

  function ConnectionsOf(f: File): Option<nat> { f.section.budgets.connections }
  function HeaderOf(f: File): Option<nat> { f.section.budgets.headerMs }
  function ConnectOf(f: File): Option<nat> { f.section.budgets.connectMs }
  function IdleOf(f: File): Option<nat> { f.section.budgets.idleMs }
  function PollOf(f: File): Option<nat> { f.section.budgets.pollMs }
  function GuardianOf(f: File): Option<bool> { f.guardian.enabled }
  function GuardianProviderOf(f: File): Option<string> { f.guardian.provider }
  function GuardianModelOf(f: File): Option<string> { f.guardian.model }
  function GuardianEffortOf(f: File): Option<string> { f.guardian.effort }
  function MemoryDirOf(f: File): Option<string> { f.memoryDir }

  function RulesOf(f: File): seq<string> { f.rules }
  function DeniedOf(f: File): seq<string> { f.section.deniedDomains }
  function RootsOf(f: File): seq<string> { f.section.writableRoots }
  function HiddenOf(f: File): seq<string> { f.section.denyRead }

  /** Settings come from the last layer that states them, allowed domains from the last that lists any. */
  predicate LaterWins(layers: seq<Layer>, m: File) {
    && m.policy == LastStated(layers, PolicyOf) && m.mode == LastStated(layers, ModeOf)
    && m.section.launcher == LastStated(layers, LauncherOf) && m.section.ports == LastStated(layers, PortsOf)
    && DomainsOf(m) == LastStated(layers, DomainsOf)
  }

  predicate LaterSwitchWins(layers: seq<Layer>, m: File) {
    && m.section.autoApproveBash == LastStated(layers, BashOf)
    && m.section.localBinding == LastStated(layers, BindingOf)
    && m.section.redirectCaches == LastStated(layers, CachesOf) && m.section.network == LastStated(layers, NetworkOf)
  }

  predicate LaterBudgetWins(layers: seq<Layer>, m: File) {
    var b := m.section.budgets;
    && b.connections == LastStated(layers, ConnectionsOf) && b.headerMs == LastStated(layers, HeaderOf)
    && b.connectMs == LastStated(layers, ConnectOf) && b.idleMs == LastStated(layers, IdleOf)
    && b.pollMs == LastStated(layers, PollOf)
  }

  predicate LaterHelperWins(layers: seq<Layer>, m: File) {
    && m.guardian.enabled == LastStated(layers, GuardianOf)
    && m.guardian.provider == LastStated(layers, GuardianProviderOf)
    && m.guardian.model == LastStated(layers, GuardianModelOf)
    && m.guardian.effort == LastStated(layers, GuardianEffortOf)
    && m.memoryDir == LastStated(layers, MemoryDirOf)
  }

  /** Rules, denials and roots accumulate. */
  predicate ListsAccumulate(layers: seq<Layer>, m: File) {
    && m.rules == Gathered(layers, RulesOf) && m.section.deniedDomains == Gathered(layers, DeniedOf)
    && m.section.writableRoots == Gathered(layers, RootsOf) && m.section.denyRead == Gathered(layers, HiddenOf)
  }

  lemma LaterWinsOneMore(layers: seq<Layer>, layer: Layer, m: File)
    requires LaterWins(layers, m)
    ensures LaterWins(layers + [layer], MergeFile(m, layer.file))
  {
    LastStatedOneMore(layers, layer, PolicyOf);
    LastStatedOneMore(layers, layer, ModeOf);
    LastStatedOneMore(layers, layer, LauncherOf);
    LastStatedOneMore(layers, layer, PortsOf);
    LastStatedOneMore(layers, layer, DomainsOf);
  }

  lemma LaterSwitchWinsOneMore(layers: seq<Layer>, layer: Layer, m: File)
    requires LaterSwitchWins(layers, m)
    ensures LaterSwitchWins(layers + [layer], MergeFile(m, layer.file))
  {
    LastStatedOneMore(layers, layer, BashOf);
    LastStatedOneMore(layers, layer, BindingOf);
    LastStatedOneMore(layers, layer, CachesOf);
    LastStatedOneMore(layers, layer, NetworkOf);
  }

  lemma LaterBudgetWinsOneMore(layers: seq<Layer>, layer: Layer, m: File)
    requires LaterBudgetWins(layers, m)
    ensures LaterBudgetWins(layers + [layer], MergeFile(m, layer.file))
  {
    LastStatedOneMore(layers, layer, ConnectionsOf);
    LastStatedOneMore(layers, layer, HeaderOf);
    LastStatedOneMore(layers, layer, ConnectOf);
    LastStatedOneMore(layers, layer, IdleOf);
    LastStatedOneMore(layers, layer, PollOf);
  }

  lemma LaterHelperWinsOneMore(layers: seq<Layer>, layer: Layer, m: File)
    requires LaterHelperWins(layers, m)
    ensures LaterHelperWins(layers + [layer], MergeFile(m, layer.file))
  {
    LastStatedOneMore(layers, layer, GuardianOf);
    LastStatedOneMore(layers, layer, GuardianProviderOf);
    LastStatedOneMore(layers, layer, GuardianModelOf);
    LastStatedOneMore(layers, layer, GuardianEffortOf);
    LastStatedOneMore(layers, layer, MemoryDirOf);
  }

  lemma ListsOneMore(layers: seq<Layer>, layer: Layer, m: File)
    requires ListsAccumulate(layers, m)
    ensures ListsAccumulate(layers + [layer], MergeFile(m, layer.file))
  {
    GatheredOneMore(layers, layer, RulesOf);
    GatheredOneMore(layers, layer, DeniedOf);
    GatheredOneMore(layers, layer, RootsOf);
    GatheredOneMore(layers, layer, HiddenOf);
  }

  // What a merge that succeeds contains, field by field.
  lemma {:induction false} MergedMeans(valid: string -> bool, layers: seq<Layer>)
    requires MergeAll(valid, layers).Ok?
    ensures var m := MergeAll(valid, layers).value;
            && LaterWins(layers, m) && LaterSwitchWins(layers, m) && LaterBudgetWins(layers, m)
            && LaterHelperWins(layers, m) && ListsAccumulate(layers, m)
  {
    if layers != [] {
      var init, layer := layers[..|layers| - 1], layers[|layers| - 1];
      assert layers == init + [layer];
      MergedMeans(valid, init);
      var m := MergeAll(valid, init).value;
      LaterWinsOneMore(init, layer, m);
      LaterSwitchWinsOneMore(init, layer, m);
      LaterBudgetWinsOneMore(init, layer, m);
      LaterHelperWinsOneMore(init, layer, m);
      ListsOneMore(init, layer, m);
    }
  }

  /** The sandbox is what the layers say last, or else the documented defaults. */
  predicate SandboxMeans(layers: seq<Layer>, s: Sandbox) {
    && s.mode == LastStated(layers, ModeOf).GetOr(WorkspaceWrite)
    && s.launcher == LastStated(layers, LauncherOf)
    && s.autoApproveBash == LastStated(layers, BashOf).GetOr(true)
    && s.localBinding == LastStated(layers, BindingOf).GetOr(true)
    && s.redirectCaches == LastStated(layers, CachesOf).GetOr(true)
    && s.network == LastStated(layers, NetworkOf).GetOr(false)
    && s.ports == LastStated(layers, PortsOf).GetOr([80, 443])
    && s.allowedDomains == LastStated(layers, DomainsOf).GetOr([])
    && s.deniedDomains == Gathered(layers, DeniedOf)
    && s.writableRoots == Gathered(layers, RootsOf) && s.denyRead == Gathered(layers, HiddenOf)
  }

  predicate BudgetsMean(layers: seq<Layer>, b: Budgets) {
    && b.connections == LastStated(layers, ConnectionsOf).GetOr(32)
    && b.headerMs == LastStated(layers, HeaderOf).GetOr(10_000)
    && b.connectMs == LastStated(layers, ConnectOf).GetOr(10_000)
    && b.idleMs == LastStated(layers, IdleOf).GetOr(60_000)
    && b.pollMs == LastStated(layers, PollOf).GetOr(10)
  }

  // The configuration a merge ends in, field by field: the last word of the layers,
  // or the default.
  lemma ConfigMeans(valid: string -> bool, layers: seq<Layer>)
    requires ConfigOf(valid, layers).Ok?
    ensures var c := ConfigOf(valid, layers).value;
            && SandboxMeans(layers, c.sandbox) && BudgetsMean(layers, c.sandbox.budgets)
            && c.policy == LastStated(layers, PolicyOf).GetOr(OnRequest)
            && c.rules == Distinct(TrimAll(Gathered(layers, RulesOf)))
            && c.guardian.enabled == LastStated(layers, GuardianOf)
            && c.guardian.provider == LastStated(layers, GuardianProviderOf)
            && c.guardian.model == LastStated(layers, GuardianModelOf)
            && c.guardian.effort == LastStated(layers, GuardianEffortOf)
            && c.memoryDir == LastStated(layers, MemoryDirOf)
  {
    MergedMeans(valid, layers);
  }

  // With nothing configured a command has no network, may write the workspace, and
  // is asked about.
  lemma DefaultsAreSafe(valid: string -> bool)
    ensures var c := ConfigOf(valid, []);
            c.Ok? && !c.value.sandbox.network && c.value.sandbox.mode == WorkspaceWrite
            && c.value.sandbox.writableRoots == [] && c.value.policy == OnRequest
  {
    var s := Resolve(EMPTY);
    assert s.allowedDomains + s.deniedDomains == [] && TrimAll([]) == [];
    ConfigMeans(valid, []);
  }

  // ----- When a merge succeeds -----

  predicate Within(stated: Option<nat>, max: nat) {
    stated.None? || 1 <= stated.value <= max
  }

  predicate BudgetsWithin(b: BudgetsFile) {
    && Within(b.connections, 256) && Within(b.headerMs, 3_600_000) && Within(b.connectMs, 3_600_000)
    && Within(b.idleMs, 3_600_000) && Within(b.pollMs, 1_000)
  }

  predicate AllValid(valid: string -> bool, domains: seq<string>) {
    forall d | d in domains :: valid(d)
  }

  predicate SectionFits(valid: string -> bool, s: Section) {
    && (s.ports.Some? ==> PortsOk(s.ports.value)) && BudgetsWithin(s.budgets)
    && AllValid(valid, s.allowedDomains) && AllValid(valid, s.deniedDomains)
  }

  lemma SectionFitsExactlyWhen(valid: string -> bool, s: Section)
    ensures LayerProblem(valid, s) == None <==> SectionFits(valid, s)
  {
    assert forall d | d in s.allowedDomains + s.deniedDomains :: d in s.allowedDomains || d in s.deniedDomains;
    assert forall d | d in s.allowedDomains || d in s.deniedDomains :: d in s.allowedDomains + s.deniedDomains;
  }

  // ----- What a repository layer can change -----

  /** `a` lets a command do no more than `b` does, and touches nothing a repository may not. */
  predicate Tighter(a: Sandbox, b: Sandbox) {
    && Latitude(a.mode) <= Latitude(b.mode)
    && (a.network ==> b.network) && (a.localBinding ==> b.localBinding)
    && (a.redirectCaches ==> b.redirectCaches) && (a.autoApproveBash ==> b.autoApproveBash)
    && (forall p | p in a.ports :: p in b.ports)
    && (forall d | d in b.deniedDomains :: d in a.deniedDomains)
    && (forall d | d in b.denyRead :: d in a.denyRead)
    && a.allowedDomains == b.allowedDomains && a.writableRoots == b.writableRoots
    && a.launcher == b.launcher && a.budgets == b.budgets
  }

  /** Ordinary approval is not skipped by `a` where `b` has it, nor calls handed to the guardian. */
  predicate PolicyBound(a: Policy, b: Policy) {
    (b == OnRequest ==> a == OnRequest) && (a == Auto ==> b == Auto)
  }

  /** The same for everything a layer can state. */
  predicate TighterFile(a: File, b: File) {
    && Tighter(Resolve(a), Resolve(b))
    && PolicyBound(a.policy.GetOr(DEFAULT_POLICY), b.policy.GetOr(DEFAULT_POLICY))
    && (forall r | r in b.rules :: r in a.rules)
    && (a.guardian.enabled.GetOr(false) ==> b.guardian.enabled.GetOr(false))
    && a.guardian.provider == b.guardian.provider && a.guardian.model == b.guardian.model
    && a.guardian.effort == b.guardian.effort && a.memoryDir == b.memoryDir
    && a.section.budgets == b.section.budgets
  }

  // A layer the check accepts only tightens what is beneath it.
  lemma AcceptedLayerTightens(file: File, m: File)
    requires CheckProject(file, m) == None
    ensures TighterFile(MergeFile(m, file), m)
  {
    var s, b := file.section, m.section;
    StricterIsLeast(m.mode.GetOr(DEFAULT_MODE), file.mode.GetOr(DEFAULT_MODE));
    assert MergeBudgets(b.budgets, NO_BUDGETS) == b.budgets;
    assert b.writableRoots + [] == b.writableRoots;
    assert s.ports.Some? ==> forall port | port in s.ports.value :: port in b.ports.GetOr(DEFAULT_PORTS);
  }

  /** The layer states nothing a repository may not state at all. */
  predicate StatesNothingReserved(f: File) {
    && f.guardian.enabled != Some(true) && f.guardian.provider == None && f.guardian.model == None
    && f.guardian.effort == None && f.memoryDir == None
    && f.section.launcher == None && f.section.budgets == BudgetsFile(None, None, None, None, None)
    && f.section.allowedDomains == [] && f.section.writableRoots == []
  }

  // The check accepts exactly the layers that state nothing reserved and tighten
  // what is beneath them.
  lemma AcceptedExactlyWhen(file: File, m: File)
    ensures CheckProject(file, m) == None <==> StatesNothingReserved(file) && TighterFile(MergeFile(m, file), m)
  {
    if CheckProject(file, m) == None {
      AcceptedLayerTightens(file, m);
    }
  }

  // One more layer merges exactly when its own section is in order and, if it is a
  // repository's, it is acceptable.
  lemma MergesExactlyWhen(valid: string -> bool, layers: seq<Layer>, layer: Layer)
    requires MergeAll(valid, layers).Ok?
    ensures var m := MergeAll(valid, layers).value;
            MergeAll(valid, layers + [layer]).Ok? <==>
            && SectionFits(valid, layer.file.section)
            && (layer.source == Project ==>
                  StatesNothingReserved(layer.file) && TighterFile(MergeFile(m, layer.file), m))
  {
    MergeOneMore(valid, layers, layer);
    SectionFitsExactlyWhen(valid, layer.file.section);
    AcceptedExactlyWhen(layer.file, MergeAll(valid, layers).value);
  }

  lemma MergedSectionFits(valid: string -> bool, b: Section, over: Section)
    requires SectionFits(valid, b) && SectionFits(valid, over)
    ensures SectionFits(valid, MergeSection(b, over))
  {
    var all := b.deniedDomains + over.deniedDomains;
    assert forall d | d in all :: d in b.deniedDomains || d in over.deniedDomains;
  }

  lemma {:induction false} FittingMerge(valid: string -> bool, layers: seq<Layer>)
    requires MergeAll(valid, layers).Ok?
    ensures SectionFits(valid, MergeAll(valid, layers).value.section)
  {
    if layers != [] {
      var init, layer := layers[..|layers| - 1], layers[|layers| - 1];
      FittingMerge(valid, init);
      SectionFitsExactlyWhen(valid, layer.file.section);
      MergedSectionFits(valid, MergeAll(valid, init).value.section, layer.file.section);
    }
  }

  // And the merged layers are a configuration exactly when no rule is blank, and
  // unrestricted network is not combined with domain lists.
  lemma ConfiguresExactlyWhen(valid: string -> bool, layers: seq<Layer>)
    requires MergeAll(valid, layers).Ok?
    ensures ConfigOf(valid, layers).Ok? <==>
            && "" !in TrimAll(Gathered(layers, RulesOf))
            && (LastStated(layers, NetworkOf) == Some(true) ==>
                  LastStated(layers, DomainsOf) == None && Gathered(layers, DeniedOf) == [])
  {
    var m := MergeAll(valid, layers).value;
    MergedMeans(valid, layers);
    FittingMerge(valid, layers);
    SectionFitsExactlyWhen(valid, m.section);
  }

  // A layer above two merges keeps the tighter one the tighter one.
  lemma LaterLayerKeepsOrder(a: File, b: File, over: File)
    requires TighterFile(a, b)
    ensures TighterFile(MergeFile(a, over), MergeFile(b, over))
  {
  }

  lemma MergeOneMore(valid: string -> bool, layers: seq<Layer>, layer: Layer)
    ensures MergeAll(valid, layers + [layer]) ==
            match MergeAll(valid, layers)
            case Err(why) => Err(why)
            case Ok(m) => MergeLayer(valid, m, layer)
  {
    assert (layers + [layer])[..|layers|] == layers;
  }

  lemma LastAbove(below: seq<Layer>, above: seq<Layer>)
    requires above != []
    ensures below + above == (below + above[..|above| - 1]) + [above[|above| - 1]]
  {
  }

  lemma {:induction false} InsertedLayerTightensFiles(valid: string -> bool, below: seq<Layer>, file: File,
      above: seq<Layer>)
    requires MergeAll(valid, below + [Layer(Project, file)] + above).Ok?
    requires MergeAll(valid, below + above).Ok?
    ensures TighterFile(MergeAll(valid, below + [Layer(Project, file)] + above).value,
        MergeAll(valid, below + above).value)
    decreases |above|
  {
    var repo := Layer(Project, file);
    if above == [] {
      assert below + [repo] + above == below + [repo] && below + above == below;
      MergeOneMore(valid, below, repo);
      AcceptedLayerTightens(file, MergeAll(valid, below).value);
    } else {
      var init, last := above[..|above| - 1], above[|above| - 1];
      LastAbove(below + [repo], above);
      LastAbove(below, above);
      MergeOneMore(valid, below + [repo] + init, last);
      MergeOneMore(valid, below + init, last);
      InsertedLayerTightensFiles(valid, below, file, init);
      LaterLayerKeepsOrder(MergeAll(valid, below + [repo] + init).value, MergeAll(valid, below + init).value,
          last.file);
    }
  }

  // Wherever a repository's layer stands among the others, the merged
  // configuration with it confines at least as much as the one without it.
  lemma RepositoryLayerOnlyTightens(valid: string -> bool, below: seq<Layer>, file: File, above: seq<Layer>)
    requires ConfigOf(valid, below + [Layer(Project, file)] + above).Ok?
    requires ConfigOf(valid, below + above).Ok?
    ensures var a, b := ConfigOf(valid, below + [Layer(Project, file)] + above).value,
        ConfigOf(valid, below + above).value;
            && Tighter(a.sandbox, b.sandbox) && PolicyBound(a.policy, b.policy)
            && (a.guardian.enabled.GetOr(false) ==> b.guardian.enabled.GetOr(false))
            && a.guardian.provider == b.guardian.provider && a.guardian.model == b.guardian.model
            && a.guardian.effort == b.guardian.effort && a.memoryDir == b.memoryDir
            && forall tool :: Covered(b.rules, tool) ==> Covered(a.rules, tool)
  {
    InsertedLayerTightensFiles(valid, below, file, above);
    var a, b := MergeAll(valid, below + [Layer(Project, file)] + above).value, MergeAll(valid, below + above).value;
    forall tool | Covered(Distinct(TrimAll(b.rules)), tool)
      ensures Covered(Distinct(TrimAll(a.rules)), tool)
    {
      NormalizedCoverage(a.rules, tool);
      NormalizedCoverage(b.rules, tool);
    }
  }

  // ----- The approval policy is not ordered -----

  /** `q` asks about everything `p` asks about. */
  ghost predicate AsksNoLess(p: Policy, q: Policy) {
    forall kind, requirement :: NeedsApproval(p, kind, requirement) ==> NeedsApproval(q, kind, requirement)
  }

  function UserOn(policy: Policy): Layer {
    Layer(User, EMPTY.(policy := Some(policy)))
  }

  const NEVER_ASKS := EMPTY.(policy := Some(Never))

  lemma PolicyLayerMerges(valid: string -> bool, m: File, layer: Layer, policy: Policy)
    requires layer.file == EMPTY.(policy := Some(policy))
    requires layer.source == Project ==> AcceptsPolicy(m.policy.GetOr(DEFAULT_POLICY), policy)
    ensures MergeLayer(valid, m, layer) == Ok(MergeFile(m, layer.file))
  {
    var s := layer.file.section;
    assert s == NO_SECTION && s.allowedDomains + s.deniedDomains == [];
    assert CheckProject(layer.file, m) == None || layer.source != Project;
  }

  // A merge that states nothing but a policy has no other problem.
  lemma PlainConfig(valid: string -> bool, layers: seq<Layer>, m: File)
    requires MergeAll(valid, layers) == Ok(m)
    requires m.rules == [] && Resolve(m) == Resolve(EMPTY)
    ensures ConfigOf(valid, layers).Ok? && ConfigOf(valid, layers).value.policy == m.policy.GetOr(DEFAULT_POLICY)
  {
    assert TrimAll(m.rules) == [];
  }

  // From any policy but OnRequest, a repository can move the user to never asking.
  lemma RepositoryCanStopTheAsking(valid: string -> bool, policy: Policy)
    requires policy != OnRequest
    ensures var with := ConfigOf(valid, [UserOn(policy)] + [Layer(Project, NEVER_ASKS)] + []);
            with.Ok? && with.value.policy == Never
    ensures var without := ConfigOf(valid, [UserOn(policy)] + []);
            without.Ok? && without.value.policy == policy
  {
    var user, repo := UserOn(policy), Layer(Project, NEVER_ASKS);
    assert [user] + [] == [user] && [user] + [repo] + [] == [user] + [repo] && [] + [user] == [user];
    MergeOneMore(valid, [], user);
    MergeOneMore(valid, [user], repo);
    PolicyLayerMerges(valid, EMPTY, user, policy);
    PolicyLayerMerges(valid, MergeFile(EMPTY, user.file), repo, Never);
    PlainConfig(valid, [user], MergeFile(EMPTY, user.file));
    PlainConfig(valid, [user] + [repo], MergeFile(MergeFile(EMPTY, user.file), NEVER_ASKS));
  }

  lemma NeverAsksLess(policy: Policy)
    ensures AsksNoLess(policy, Never) <==> policy == Never
  {
    if policy != Never {
      assert NeedsApproval(policy, Execute, ReviewRequired) && !NeedsApproval(Never, Execute, ReviewRequired);
    }
  }

  // The check keeps a repository from making calls go unasked exactly when the
  // policy beneath it is OnRequest, which cannot change, or Never, which asks least.
  lemma PolicyCheckSufficesExactlyWhen(current: Policy)
    ensures (forall asked | AcceptsPolicy(current, asked) :: AsksNoLess(current, asked)) <==>
        current == OnRequest || current == Never
  {
    NeverAsksLess(current);
    assert AcceptsPolicy(current, Never) || current == OnRequest;
  }

  /** No repository layer makes a call go unasked that would be asked about under `policy` without it. */
  ghost predicate KeepsAsking(valid: string -> bool, policy: Policy) {
    forall below, file, above |
      && ConfigOf(valid, below + [Layer(Project, file)] + above).Ok?
      && ConfigOf(valid, below + above).Ok? && ConfigOf(valid, below + above).value.policy == policy ::
      AsksNoLess(policy, ConfigOf(valid, below + [Layer(Project, file)] + above).value.policy)
  }

  // The same for whole merges, wherever the repository's layer stands.
  lemma MergeKeepsAskingExactlyWhen(valid: string -> bool, policy: Policy)
    ensures KeepsAsking(valid, policy) <==> policy == OnRequest || policy == Never
  {
    if policy == OnRequest {
      forall below, file, above |
        && ConfigOf(valid, below + [Layer(Project, file)] + above).Ok?
        && ConfigOf(valid, below + above).Ok? && ConfigOf(valid, below + above).value.policy == policy
        ensures ConfigOf(valid, below + [Layer(Project, file)] + above).value.policy == OnRequest
      {
        RepositoryLayerOnlyTightens(valid, below, file, above);
      }
    } else if policy != Never {
      RepositoryCanStopTheAsking(valid, policy);
      NeverAsksLess(policy);
    }
  }

  // ----- The code itself -----

  method CheckPorts(ports: seq<nat>) returns (ok: bool)
    ensures ok <==> PortsOk(ports)
  {
    for n := 0 to |ports|
      invariant 0 !in ports[..n]
      invariant forall i, j | 0 <= i < j < n :: ports[i] != ports[j]
    {
      if ports[n] == 0 {
        assert ports[n] in ports;
        return false;
      }
      if ports[n] in ports[..n] {
        return false;
      }
    }
    assert ports[..|ports|] == ports;
    ok := true;
  }

  // The first layer that fails decides the outcome.
  lemma {:induction false} ErrorsStay(valid: string -> bool, layers: seq<Layer>, n: nat)
    requires n <= |layers| && MergeAll(valid, layers[..n]).Err?
    ensures MergeAll(valid, layers) == MergeAll(valid, layers[..n])
    decreases |layers|
  {
    if n == |layers| {
      assert layers[..n] == layers;
    } else {
      var init := layers[..|layers| - 1];
      assert init[..n] == layers[..n];
      ErrorsStay(valid, init, n);
    }
  }

  method FromLayers(valid: string -> bool, layers: seq<Layer>) returns (r: Result<Config, Why>)
    ensures r == ConfigOf(valid, layers)
  {
    var merged := EMPTY;
    for n := 0 to |layers|
      invariant MergeAll(valid, layers[..n]) == Ok(merged)
    {
      var layer := layers[n];
      assert layers[..n + 1] == layers[..n] + [layer];
      MergeOneMore(valid, layers[..n], layer);
      if layer.source == Project {
        var refused := CheckProject(layer.file, merged);
        if refused.Some? {
          ErrorsStay(valid, layers, n + 1);
          return Err(refused.value);
        }
      }
      var section := layer.file.section;
      var portsOk := CheckPorts(section.ports.GetOr(DEFAULT_PORTS));
      if !portsOk {
        ErrorsStay(valid, layers, n + 1);
        return Err(BadPorts);
      }
      if !BudgetsOk(ResolveBudgets(section.budgets)) {
        ErrorsStay(valid, layers, n + 1);
        return Err(BadBudgets);
      }
      if exists p | p in section.allowedDomains + section.deniedDomains :: !valid(p) {
        ErrorsStay(valid, layers, n + 1);
        return Err(BadPattern);
      }
      merged := MergeFile(merged, layer.file);
    }
    assert layers[..|layers|] == layers;
    var rules := CheckApprovalRules(merged.rules);
    if rules.Err? {
      return Err(EmptyRule);
    }
    var sandbox := Resolve(merged);
    var problem := SandboxProblem(valid, sandbox);
    if problem.Some? {
      return Err(problem.value);
    }
    r := Ok(Config(merged.policy.GetOr(DEFAULT_POLICY), rules.value, sandbox, merged.guardian, merged.memoryDir));
  }
}
