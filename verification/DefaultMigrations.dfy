/** The migrations that ship with the application, and when rolling them back loses nothing. */
module DefaultMigrations {
  import opened Migrations

  /** `dict.setdefault` for several keys. */
  function WithDefaults(payload: Payload, defaults: Payload): Payload {
    defaults + payload
  }

  function SettingsDefaults(): Payload {
    map[
      "adaptive_request_concurrency" := Flag(true),
      "resource_governor_enabled" := Flag(true),
      "resource_cpu_soft_percent" := Number(88),
      "resource_memory_soft_percent" := Number(82),
      "resource_min_free_disk_mb" := Number(512),
      "resource_max_browser_instances" := Number(4),
      "experience_profile" := Text(""),
      "experience_setup_completed" := Flag(false)
    ]
  }

  function UpgradeSettings(payload: Payload): Payload {
    WithDefaults(payload, SettingsDefaults())["schema_version" := Number(9)]
  }

  function DowngradeSettings(payload: Payload): Payload {
    (payload - SettingsDefaults().Keys)["schema_version" := Number(8)]
  }

  const PORTABLE := Object(map["portable" := Flag(true), "secrets" := Text("references-only")])

  function UpgradeWorkflow(payload: Payload): Payload {
    var described := WithDefaults(payload["schema" := Text("arenyxa.workflow/v1")], map["metadata" := PORTABLE]) - {"sha256"};
    described["sha256" := Sha256(described)]
  }

  function DowngradeWorkflow(payload: Payload): Payload {
    (payload - {"sha256"})["schema" := Text("arenyxa.workflow/v0")]
  }

  function PluginDefaults(): Payload {
    map["api_version" := Text("1"), "min_app_version" := Text("6.0.0")]
  }

  function UpgradePlugin(payload: Payload): Payload {
    WithDefaults(payload, PluginDefaults())
  }

  function DowngradePlugin(payload: Payload): Payload {
    payload - PluginDefaults().Keys
  }

  predicate Holds(payload: Payload, key: string, value: Value) {
    key in payload && payload[key] == value
  }

  // ----- What the migrated files hold -----

  /** The key has the value it had before, or else this one. */
  predicate KeptOr(before: Payload, after: Payload, key: string, value: Value) {
    key in after && after[key] == if key in before then before[key] else value
  }

  /** Outside these keys the two files are the same. */
  ghost predicate SameBut(before: Payload, after: Payload, keys: set<string>) {
    forall key :: key !in keys ==> (key in before <==> key in after) && (key in before ==> after[key] == before[key])
  }

  /** Version 9 settings: nothing the user set is changed, and each of the eight new settings is there. */
  ghost predicate SettingsMigrated(before: Payload, after: Payload) {
    && KeptOr(before, after, "adaptive_request_concurrency", Flag(true))
    && KeptOr(before, after, "resource_governor_enabled", Flag(true))
    && KeptOr(before, after, "resource_cpu_soft_percent", Number(88))
    && KeptOr(before, after, "resource_memory_soft_percent", Number(82))
    && KeptOr(before, after, "resource_min_free_disk_mb", Number(512))
    && KeptOr(before, after, "resource_max_browser_instances", Number(4))
    && KeptOr(before, after, "experience_profile", Text(""))
    && KeptOr(before, after, "experience_setup_completed", Flag(false))
    && Holds(after, "schema_version", Number(9))
    && SameBut(before, after, {
      "adaptive_request_concurrency", "resource_governor_enabled", "resource_cpu_soft_percent",
      "resource_memory_soft_percent", "resource_min_free_disk_mb", "resource_max_browser_instances",
      "experience_profile", "experience_setup_completed", "schema_version"})
  }

  /** Back at version 8: the eight settings are gone, whoever set them, and nothing else is changed. */
  ghost predicate SettingsRolledBack(before: Payload, after: Payload) {
    && after.Keys !! {
      "adaptive_request_concurrency", "resource_governor_enabled", "resource_cpu_soft_percent",
      "resource_memory_soft_percent", "resource_min_free_disk_mb", "resource_max_browser_instances",
      "experience_profile", "experience_setup_completed"}
    && Holds(after, "schema_version", Number(8))
    && SameBut(before, after, {
      "adaptive_request_concurrency", "resource_governor_enabled", "resource_cpu_soft_percent",
      "resource_memory_soft_percent", "resource_min_free_disk_mb", "resource_max_browser_instances",
      "experience_profile", "experience_setup_completed", "schema_version"})
  }

  /** A version 1 workflow: metadata is kept or added, and the digest is of everything else the file now holds. */
  ghost predicate WorkflowMigrated(before: Payload, after: Payload) {
    && Holds(after, "schema", Text("arenyxa.workflow/v1"))
    && KeptOr(before, after, "metadata", Object(map["portable" := Flag(true), "secrets" := Text("references-only")]))
    && Holds(after, "sha256", Sha256(after - {"sha256"}))
    && SameBut(before, after, {"schema", "metadata", "sha256"})
  }

  ghost predicate WorkflowRolledBack(before: Payload, after: Payload) {
    && Holds(after, "schema", Text("arenyxa.workflow/v0")) && "sha256" !in after
    && SameBut(before, after, {"schema", "sha256"})
  }

  ghost predicate PluginMigrated(before: Payload, after: Payload) {
    && KeptOr(before, after, "api_version", Text("1")) && KeptOr(before, after, "min_app_version", Text("6.0.0"))
    && SameBut(before, after, {"api_version", "min_app_version"})
  }

  ghost predicate PluginRolledBack(before: Payload, after: Payload) {
    after.Keys !! {"api_version", "min_app_version"} && SameBut(before, after, {"api_version", "min_app_version"})
  }

  lemma SettingsHold(payload: Payload)
    ensures SettingsMigrated(payload, UpgradeSettings(payload)) && SettingsRolledBack(payload, DowngradeSettings(payload))
  {
    hide SettingsMigrated, SettingsRolledBack, UpgradeSettings, DowngradeSettings;
    SettingsAdded(payload);
    SettingsRemoved(payload);
  }

  lemma SettingsAdded(payload: Payload)
    ensures SettingsMigrated(payload, UpgradeSettings(payload))
  {
  }

  lemma SettingsRemoved(payload: Payload)
    ensures SettingsRolledBack(payload, DowngradeSettings(payload))
  {
  }

  lemma WorkflowHolds(payload: Payload)
    ensures WorkflowMigrated(payload, UpgradeWorkflow(payload)) && WorkflowRolledBack(payload, DowngradeWorkflow(payload))
  {
    WorkflowDigest(payload);
  }

  lemma PluginHolds(payload: Payload)
    ensures PluginMigrated(payload, UpgradePlugin(payload)) && PluginRolledBack(payload, DowngradePlugin(payload))
  {
  }

  // ----- Round trips -----

  /** Adding defaults and removing their keys again: nothing is lost exactly if no key was there before. */
  lemma DefaultsRemoved(payload: Payload, defaults: Payload)
    ensures WithDefaults(payload, defaults) - defaults.Keys == payload - defaults.Keys
    ensures payload - defaults.Keys == payload <==> payload.Keys !! defaults.Keys
  {
    if payload - defaults.Keys == payload {
      forall key | key in payload ensures key !in defaults {
        assert key in payload - defaults.Keys;
      }
    }
  }

  /** Rolling settings back from version 9 restores exactly the version 8 files without any of the new keys. */
  lemma SettingsRoundTrip(payload: Payload)
    ensures DowngradeSettings(UpgradeSettings(payload)) == payload <==>
      payload.Keys !! SettingsDefaults().Keys && Holds(payload, "schema_version", Number(8))
  {
    var defaults := SettingsDefaults();
    assert "schema_version" !in defaults;
    hide SettingsDefaults;
    DefaultsRemoved(payload, defaults);
    var back := DowngradeSettings(UpgradeSettings(payload));
    assert back == (payload - defaults.Keys)["schema_version" := Number(8)];
    if back == payload {
      assert Holds(back, "schema_version", Number(8));
      forall key | key in payload ensures key !in defaults {
        assert key in back;
      }
    }
  }

  /** A workflow comes back exactly if it was a version 0 file with metadata and without a digest. */
  lemma WorkflowRoundTrip(payload: Payload)
    ensures DowngradeWorkflow(UpgradeWorkflow(payload)) == payload <==>
      && Holds(payload, "schema", Text("arenyxa.workflow/v0"))
      && "metadata" in payload && "sha256" !in payload
  {
    var back := DowngradeWorkflow(UpgradeWorkflow(payload));
    assert "metadata" in back && "sha256" !in back && Holds(back, "schema", Text("arenyxa.workflow/v0"));
  }

  /** A migrated workflow carries the digest of everything else it holds. */
  lemma WorkflowDigest(payload: Payload)
    ensures var migrated := UpgradeWorkflow(payload);
      Holds(migrated, "sha256", Sha256(migrated - {"sha256"}))
  {
    var migrated := UpgradeWorkflow(payload);
    assert migrated["sha256"].of == migrated - {"sha256"};
  }

  /** Migrating a workflow that was rolled back gives the migrated workflow again, digest included. */
  lemma WorkflowMigratesAgain(payload: Payload)
    ensures UpgradeWorkflow(DowngradeWorkflow(UpgradeWorkflow(payload))) == UpgradeWorkflow(payload)
  {
    var migrated := UpgradeWorkflow(payload);
    var again := UpgradeWorkflow(DowngradeWorkflow(migrated));
    assert again - {"sha256"} == migrated - {"sha256"};
    WorkflowDigest(payload);
    WorkflowDigest(DowngradeWorkflow(migrated));
  }

  lemma PluginRoundTrip(payload: Payload)
    ensures DowngradePlugin(UpgradePlugin(payload)) == payload <==> payload.Keys !! PluginDefaults().Keys
  {
    DefaultsRemoved(payload, PluginDefaults());
  }

  function SettingsStep(): Step {
    Step("settings", 8, 9, payload => Some(UpgradeSettings(payload)), Some(DowngradeSettings))
  }

  function WorkflowStep(): Step {
    Step("workflow_definition", 0, 1, payload => Some(UpgradeWorkflow(payload)), Some(DowngradeWorkflow))
  }

  function PluginStep(): Step {
    Step("plugin_api", 0, 1, payload => Some(UpgradePlugin(payload)), Some(DowngradePlugin))
  }

  const DEFAULT_POLICIES := map[
    "settings" := Policy("settings", 9, 8),
    "workflow_definition" := Policy("workflow_definition", 1, 0),
    "plugin_api" := Policy("plugin_api", 1, 0),
    "enterprise_vault" := Policy("enterprise_vault", 1, 1),
    "distributed_queue" := Policy("distributed_queue", 1, 1)
  ]

  ghost function DefaultSteps(): map<(string, int), Step> {
    map[("settings", 8) := SettingsStep(), ("workflow_definition", 0) := WorkflowStep(), ("plugin_api", 0) := PluginStep()]
  }

  method DefinePolicies(registry: MigrationRegistry)
    requires registry.Valid() && registry.policies == map[]
    modifies registry`policies
    ensures registry.Valid() && registry.policies == DEFAULT_POLICIES
  {
    var defined := registry.DefinePolicy(Policy("settings", 9, 8));
    defined := registry.DefinePolicy(Policy("workflow_definition", 1, 0));
    defined := registry.DefinePolicy(Policy("plugin_api", 1, 0));
    defined := registry.DefinePolicy(Policy("enterprise_vault", 1, 1));
    defined := registry.DefinePolicy(Policy("distributed_queue", 1, 1));
  }

  method RegisterSteps(registry: MigrationRegistry)
    requires registry.Valid() && registry.steps == map[]
    modifies registry`steps
    ensures registry.Valid() && registry.steps == DefaultSteps()
  {
    var settings, workflow, plugin := SettingsStep(), WorkflowStep(), PluginStep();
    var registered := registry.Register(settings);
    registered := registry.Register(workflow);
    registered := registry.Register(plugin);
  }

  /** `default_migration_registry` */
  method DefaultRegistry() returns (registry: MigrationRegistry)
    ensures fresh(registry) && registry.Valid()
    ensures registry.policies == DEFAULT_POLICIES && registry.steps == DefaultSteps()
  {
    registry := new MigrationRegistry();
    DefinePolicies(registry);
    RegisterSteps(registry);
  }

  ghost predicate IsMigrated(artifact: string, before: Payload, after: Payload) {
    && (artifact == "settings" ==> SettingsMigrated(before, after))
    && (artifact == "workflow_definition" ==> WorkflowMigrated(before, after))
    && (artifact == "plugin_api" ==> PluginMigrated(before, after))
  }

  ghost predicate IsRolledBack(artifact: string, before: Payload, after: Payload) {
    && (artifact == "settings" ==> SettingsRolledBack(before, after))
    && (artifact == "workflow_definition" ==> WorkflowRolledBack(before, after))
    && (artifact == "plugin_api" ==> PluginRolledBack(before, after))
  }

  lemma OneStep(step: Step, payload: Payload)
    ensures Upgraded([step], payload) == step.upgrade(payload)
    ensures step.downgrade.Some? ==> Downgraded([step], payload) == Some(step.downgrade.value(payload))
  {
    assert [step][..0] == [];
    assert forall before: Payload :: Upgraded([], before) == Some(before) && Downgraded([], before) == Some(before);
  }

  /** The oldest supported version of an artifact that has a step. */
  function Oldest(artifact: string): int {
    if artifact == "settings" then 8 else 0
  }

  /**
   * The default registry migrates every file of the oldest supported version to the current one, as promised for
   * its kind, and rolls any file back by the same steps.
   */
  method MigrateDefault(artifact: string, payload: Payload, later: Payload) returns (migrated: Payload, back: Payload)
    requires artifact in {"settings", "workflow_definition", "plugin_api"}
    ensures IsMigrated(artifact, payload, migrated) && IsRolledBack(artifact, later, back)
  {
    hide IsMigrated, IsRolledBack, DefaultSteps, Upgraded, Downgraded;
    var registry := DefaultRegistry();
    DefaultPath(registry, artifact);
    ghost var step := DefaultSteps()[(artifact, Oldest(artifact))];
    OneStep(step, payload);
    OneStep(step, later);
    DefaultHolds(artifact, payload);
    DefaultHolds(artifact, later);
    var result := registry.Migrate(artifact, payload, Oldest(artifact), None);
    migrated := result.value.0;
    var rolledBack := registry.Rollback(later, result.value.1);
    back := rolledBack.value;
  }

  lemma DefaultPath(registry: MigrationRegistry, artifact: string)
    requires registry.policies == DEFAULT_POLICIES && registry.steps == DefaultSteps()
    requires artifact in {"settings", "workflow_definition", "plugin_api"}
    ensures var start := Oldest(artifact);
      && (artifact, start) in DefaultSteps()
      && registry.HasPath(artifact, start, None) && registry.Target(artifact, None) == start + 1
      && registry.Path(artifact, start, start + 1) == [DefaultSteps()[(artifact, start)]]
  {
    var start := Oldest(artifact);
    assert registry.Path(artifact, start, start) == [];
  }

  lemma DefaultHolds(artifact: string, payload: Payload)
    requires artifact in {"settings", "workflow_definition", "plugin_api"}
    ensures (artifact, Oldest(artifact)) in DefaultSteps()
    ensures var step := DefaultSteps()[(artifact, Oldest(artifact))];
      && step.upgrade(payload).Some? && IsMigrated(artifact, payload, step.upgrade(payload).value)
      && step.downgrade.Some? && IsRolledBack(artifact, payload, step.downgrade.value(payload))
  {
    hide SettingsMigrated, SettingsRolledBack, WorkflowMigrated, WorkflowRolledBack, PluginMigrated, PluginRolledBack,
      UpgradeSettings, DowngradeSettings, UpgradeWorkflow, DowngradeWorkflow, UpgradePlugin, DowngradePlugin;
    SettingsHold(payload);
    WorkflowHolds(payload);
    PluginHolds(payload);
  }
}
