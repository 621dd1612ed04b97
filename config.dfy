/**
 * The request configuration of the server (`PipelineConfig` and its
 * sections) and its `validate` methods.  Optional attributes that sections
 * do not declare, but that steps look up with a default (`group.structure`,
 * `transfer.cleanup_hidden_files`), are `Option` fields: `None` means the
 * attribute is absent, which is always the case for configs parsed by the server.
 * The `metadata` section (`MetadataConfig`) is not modelled: no modelled step reads it.
 */
module Config {
  import opened Common

  datatype TimestampFormatConfig = TimestampFormatConfig(preset: string, hourFormat12: bool)
  datatype StandardizeConfig = StandardizeConfig(useFilenameFallback: bool)
  datatype DeduplicateConfig = DeduplicateConfig(fasterProcess: bool)
  datatype PrefixConfig = PrefixConfig(addTimestamp: bool, timelineMode: Option<string>)
  datatype RenameConfig = RenameConfig(replaceBodyname: Option<string>,
                                       appendFirstText: Option<string>,
                                       appendSecondText: Option<string>)
  datatype ExtensionConfig = ExtensionConfig(cleanExtensions: bool, uniformExtensions: bool)
  datatype GroupConfig = GroupConfig(prioritizeFilename: bool, structure: Option<string>)
  datatype TransferConfig = TransferConfig(overwrite: bool, cleanupHiddenFiles: Option<bool>)

  datatype PipelineConfig = PipelineConfig(
    sourceDir: string,
    targetDir: string,
    isDryRun: bool,
    fileCategory: string,
    timestampFormat: TimestampFormatConfig,
    standardize: StandardizeConfig,
    deduplicate: DeduplicateConfig,
    prefix: PrefixConfig,
    extension: ExtensionConfig,
    rename: RenameConfig,
    group: GroupConfig,
    transfer: TransferConfig)

  /** A config with every section at its declared default. */
  function DefaultConfig(sourceDir: string, targetDir: string, isDryRun: bool): (c: PipelineConfig)
    ensures c.fileCategory == "all" && c.timestampFormat.preset == "pcloud"
    ensures c.timestampFormat.hourFormat12 && c.prefix.addTimestamp && c.prefix.timelineMode.None?
  {
    PipelineConfig(sourceDir, targetDir, isDryRun, "all",
      TimestampFormatConfig("pcloud", true),
      StandardizeConfig(false),
      DeduplicateConfig(true),
      PrefixConfig(true, None),
      ExtensionConfig(true, true),
      RenameConfig(Some(""), Some(""), Some("")),
      GroupConfig(true, None),
      TransferConfig(false, None))
  }

  const TimelineModes: set<string> := {"off", "timeline_only", "timeline_plus"}
  const Presets: set<string> := {"pcloud", "google_photos", "default"}
  const Categories: set<string> := {"all", "docs", "photos", "audio", "video", "code", "others"}

  const TimelineModeError := "timeline_mode must be one of: off, timeline_only, timeline_plus"
  const PresetError := "timestamp_format.preset must be one of: pcloud, google_photos, default"
  const SourceDirError := "sourceDir must be a non-empty string"
  const TargetDirError := "targetDir must be a non-empty string"
  const CategoryError := "fileCategory must be one of: all, docs, photos, audio, video, code, others"

  /** `PrefixConfig.validate`: an absent mode is fine, a present one must be known. */
  function ValidatePrefix(p: PrefixConfig): (r: Outcome)
    ensures r.Pass? <==> (p.timelineMode.None? || p.timelineMode.value in TimelineModes)
    ensures r.Fail? ==> r.error == TimelineModeError
  {
    if p.timelineMode.Some? && p.timelineMode.value !in TimelineModes then Fail(TimelineModeError) else Pass
  }

  /** `TimestampFormatConfig.validate`. */
  function ValidateTimestampFormat(t: TimestampFormatConfig): (r: Outcome)
    ensures r.Pass? <==> t.preset in Presets
    ensures r.Fail? ==> r.error == PresetError
  {
    if t.preset !in Presets then Fail(PresetError) else Pass
  }

  /** Everything `PipelineConfig.validate` demands. */
  predicate WellFormed(c: PipelineConfig)
  {
    c.sourceDir != "" && c.targetDir != "" && c.fileCategory in Categories
    && (c.prefix.timelineMode.None? || c.prefix.timelineMode.value in TimelineModes)
    && c.timestampFormat.preset in Presets
  }

  /** `PipelineConfig.validate`: the checks in order, the first failing one's message. */
  function Validate(c: PipelineConfig): (r: Outcome)
    ensures r.Pass? <==> WellFormed(c)
    ensures c.sourceDir == "" ==> r == Fail(SourceDirError)
    ensures c.sourceDir != "" && c.targetDir == "" ==> r == Fail(TargetDirError)
    ensures c.sourceDir != "" && c.targetDir != "" && c.fileCategory !in Categories ==> r == Fail(CategoryError)
    ensures (c.sourceDir != "" && c.targetDir != "" && c.fileCategory in Categories
             && ValidatePrefix(c.prefix).Fail?) ==> r == Fail(TimelineModeError)
    ensures (c.sourceDir != "" && c.targetDir != "" && c.fileCategory in Categories
             && ValidatePrefix(c.prefix).Pass? && c.timestampFormat.preset !in Presets) ==> r == Fail(PresetError)
    ensures r.Fail? ==> r.error in {SourceDirError, TargetDirError, CategoryError, TimelineModeError, PresetError}
  {
    if c.sourceDir == "" then Fail(SourceDirError)
    else if c.targetDir == "" then Fail(TargetDirError)
    else if c.fileCategory !in Categories then Fail(CategoryError)
    else if ValidatePrefix(c.prefix).Fail? then ValidatePrefix(c.prefix)
    else ValidateTimestampFormat(c.timestampFormat)
  }

  /** The defaults pass validation whenever both directories are given. */
  lemma DefaultConfigValid(src: string, tgt: string, dry: bool)
    requires src != "" && tgt != ""
    ensures Validate(DefaultConfig(src, tgt, dry)) == Pass
  {
  }
}
