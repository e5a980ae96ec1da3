/** The run configuration: the script manager's settings dictionary, the
    export switches derived from it, the required-settings check and the
    masked view used when the settings are logged. */
module Scripting {
  import opened Wrappers
  import opened Text
  import opened Utils
  import opened Configs
  import opened Dates

  /** The state of `ScriptManager` the package reads: the settings and the
      two destination switches. */
  datatype ScriptManager = ScriptManager(config: map<string, ConfigValue>, exportToGee: bool, exportToGdrive: bool)

  /** `export_to in ["toAsset", "toAssetAndDrive"]`. */
  predicate GeeEnabled(exportTo: ConfigValue) {
    exportTo == Str(ToAsset) || exportTo == Str(ToAssetAndDrive)
  }

  /** `export_to in ["toDrive", "toAssetAndDrive"]`. */
  predicate GdriveEnabled(exportTo: ConfigValue) {
    exportTo == Str(ToDrive) || exportTo == Str(ToAssetAndDrive)
  }

  // ---------------------------------------------------------------------------
  // update_config and the constructor

  /** `update_config`: nothing to do without new settings; otherwise the new
      settings' keys are lower-cased and every known setting with a truthy new
      value takes it. No setting is added. */
  function UpdateConfig(config: map<string, ConfigValue>, newConfig: Option<seq<(string, ConfigValue)>>): (r: map<string, ConfigValue>)
    ensures r.Keys == config.Keys
    ensures newConfig.None? ==> r == config
    ensures forall k :: k in config && r[k] != config[k] ==>
              newConfig.Some? && k in KeysToLower(newConfig.value) && Truthy(r[k]) && r[k] == KeysToLower(newConfig.value)[k]
  {
    match newConfig
    case None => config
    case Some(items) => ReplaceValues(config, KeysToLower(items))
  }

  /** A known setting given with a truthy value, under any letter case, takes
      that value unless a later item lowers to the same key. */
  lemma UpdateConfigApplies(config: map<string, ConfigValue>, items: seq<(string, ConfigValue)>, i: nat)
    requires i < |items| && Lower(items[i].0) in config && Truthy(items[i].1)
    requires forall j :: i < j < |items| ==> Lower(items[j].0) != Lower(items[i].0)
    ensures UpdateConfig(config, Some(items))[Lower(items[i].0)] == items[i].1
  {
    KeysToLowerLastWins(items, i);
  }

  /** Applying the same new settings twice is applying them once. */
  lemma UpdateConfigIdempotent(config: map<string, ConfigValue>, newConfig: Option<seq<(string, ConfigValue)>>)
    ensures UpdateConfig(UpdateConfig(config, newConfig), newConfig) == UpdateConfig(config, newConfig)
  {
    if newConfig.Some? {
      ReplaceIdempotent(config, KeysToLower(newConfig.value));
    }
  }

  /** `ScriptManager(new_config)`: the defaults updated with the new settings,
      and the destination switches read from the resulting `export_to`. */
  function NewScriptManager(newConfig: Option<seq<(string, ConfigValue)>>): (m: ScriptManager)
    ensures m.config.Keys == DefaultConfig().Keys
    ensures m.config == UpdateConfig(DefaultConfig(), newConfig)
    ensures m.exportToGee <==> GeeEnabled(m.config[ExportToKey])
    ensures m.exportToGdrive <==> GdriveEnabled(m.config[ExportToKey])
  {
    var config := UpdateConfig(DefaultConfig(), newConfig);
    ScriptManager(config, GeeEnabled(config[ExportToKey]), GdriveEnabled(config[ExportToKey]))
  }

  /** Without new settings the run exports to GEE only. */
  lemma DefaultManagerExportsToGee()
    ensures NewScriptManager(None).exportToGee
    ensures !NewScriptManager(None).exportToGdrive
  {
    assert ToAsset[2] != ToDrive[2];
    assert |ToAsset| != |ToAssetAndDrive|;
  }

  /** `toAssetAndDrive` switches both destinations on; `toDrive` only Drive. */
  lemma ManagerDestinations(newConfig: Option<seq<(string, ConfigValue)>>)
    ensures var m := NewScriptManager(newConfig);
            m.config[ExportToKey] == Str(ToAssetAndDrive) ==> m.exportToGee && m.exportToGdrive
    ensures var m := NewScriptManager(newConfig);
            m.config[ExportToKey] == Str(ToDrive) ==> !m.exportToGee && m.exportToGdrive
  {
    assert ToAsset[2] != ToDrive[2];
    assert |ToDrive| != |ToAssetAndDrive|;
  }

  // ---------------------------------------------------------------------------
  // check_required

  const CredentialsMsg := "Service credentials file is required."
  const GeePathMsg := "Assets path is required if export_to is set to 'toAsset' or 'toAssetAndDrive'."
  const GdrivePathMsg := "Google Drive path is required if export_to is set to 'toDrive' or 'toAssetAndDrive'."
  const RegionsMsg := "Regions asset path is required."
  const MonthsMsg := "One or more dates provided in months_list are not valid"

  /** The settings `check_required` reads are all present; every manager's
      settings have them, since they start as the defaults and never gain or
      lose a key. */
  predicate HasRequiredKeys(config: map<string, ConfigValue>) {
    && CredentialsKey in config && ExportToKey in config && GeePathKey in config
    && GdrivePathKey in config && RegionsPathKey in config && MonthsListKey in config
  }

  /** `check_valid_date_list(months_list)` on a configuration value: a string
      is one date, a list is many, and anything else cannot be iterated. */
  function MonthsValid(v: ConfigValue): (r: Result<bool>)
    ensures r.Err? <==> !(v.Str? || v.List?)
    ensures r.Err? ==> r.error.TypeError?
    ensures v.Str? ==> r == Ok(CheckValidDate(v.s))
    ensures v.List? ==> r == Ok(forall k :: 0 <= k < |v.items| ==> CheckValidDate(v.items[k]))
  {
    match v
    case Str(s) => Ok(CheckValidDateList(OneDate(s)))
    case List(ds) => Ok(CheckValidDateList(DateList(ds)))
    case _ => Err(TypeError("object is not iterable"))
  }

  /** The credentials file and the export paths the destination needs are
      set: the first three checks of `check_required` pass. */
  predicate DestinationPathsSet(config: map<string, ConfigValue>)
    requires HasRequiredKeys(config)
  {
    && config[CredentialsKey] != NoneValue
    && (GeeEnabled(config[ExportToKey]) ==> config[GeePathKey] != NoneValue)
    && (GdriveEnabled(config[ExportToKey]) ==> config[GdrivePathKey] != NoneValue)
  }

  /** Every path check passes and a months list is given, so the list is
      validated. */
  predicate MonthsChecked(config: map<string, ConfigValue>)
    requires HasRequiredKeys(config)
  {
    DestinationPathsSet(config) && config[RegionsPathKey] != NoneValue && Truthy(config[MonthsListKey])
  }

  /** The requirements `check_required` enforces, stated as one condition. */
  predicate ConfigComplete(config: map<string, ConfigValue>)
    requires HasRequiredKeys(config)
  {
    && DestinationPathsSet(config)
    && config[RegionsPathKey] != NoneValue
    && (Truthy(config[MonthsListKey]) ==> MonthsValid(config[MonthsListKey]) == Ok(true))
  }

  /** `check_required`: True iff every requirement holds; otherwise the error
      of the first failing check, in the order credentials, GEE path, Drive
      path, regions path, months list. */
  function CheckRequired(config: map<string, ConfigValue>): (r: Result<bool>)
    requires HasRequiredKeys(config)
    ensures r.Ok? <==> ConfigComplete(config)
    ensures r.Ok? ==> r.value
    ensures config[CredentialsKey] == NoneValue ==> r == Err(ValueError(CredentialsMsg))
    ensures config[CredentialsKey] != NoneValue && GeeEnabled(config[ExportToKey]) && config[GeePathKey] == NoneValue
            ==> r == Err(ValueError(GeePathMsg))
    ensures config[CredentialsKey] != NoneValue && !(GeeEnabled(config[ExportToKey]) && config[GeePathKey] == NoneValue)
            && GdriveEnabled(config[ExportToKey]) && config[GdrivePathKey] == NoneValue
            ==> r == Err(ValueError(GdrivePathMsg))
    ensures DestinationPathsSet(config) && config[RegionsPathKey] == NoneValue
            ==> r == Err(ValueError(RegionsMsg))
    ensures MonthsChecked(config) && MonthsValid(config[MonthsListKey]) == Ok(false)
            ==> r == Err(ValueError(MonthsMsg))
    ensures MonthsChecked(config) && MonthsValid(config[MonthsListKey]).Err?
            ==> r == Err(MonthsValid(config[MonthsListKey]).error)
    ensures r.Err? && r.error.TypeError? ==> Truthy(config[MonthsListKey])
    ensures r.Err? && !r.error.TypeError? ==> r.error.ValueError?
  {
    if config[CredentialsKey] == NoneValue then Err(ValueError(CredentialsMsg))
    else if GeeEnabled(config[ExportToKey]) && config[GeePathKey] == NoneValue then Err(ValueError(GeePathMsg))
    else if GdriveEnabled(config[ExportToKey]) && config[GdrivePathKey] == NoneValue then Err(ValueError(GdrivePathMsg))
    else if config[RegionsPathKey] == NoneValue then Err(ValueError(RegionsMsg))
    else if Truthy(config[MonthsListKey]) then
      match MonthsValid(config[MonthsListKey])
      case Err(e) => Err(e)
      case Ok(valid) => if valid then Ok(true) else Err(ValueError(MonthsMsg))
    else Ok(true)
  }

  /** The settings of a fresh manager have every key `check_required` reads. */
  lemma ManagerHasRequiredKeys(newConfig: Option<seq<(string, ConfigValue)>>)
    ensures HasRequiredKeys(NewScriptManager(newConfig).config)
  {
  }

  /** The defaults alone fail on the first check: there are no credentials. */
  lemma DefaultsLackCredentials()
    ensures CheckRequired(DefaultConfig()) == Err(ValueError(CredentialsMsg))
  {
  }

  /** An empty or absent months list is never validated. */
  lemma FalsyMonthsIgnored(config: map<string, ConfigValue>, v: ConfigValue)
    requires HasRequiredKeys(config) && !Truthy(v)
    ensures CheckRequired(config[MonthsListKey := v]) == CheckRequired(config[MonthsListKey := NoneValue])
  {
    var a, b := config[MonthsListKey := v], config[MonthsListKey := NoneValue];
    assert forall k :: k != MonthsListKey && k in config ==> a[k] == b[k] && a[k] == config[k];
    assert MonthsListKey != CredentialsKey && MonthsListKey != ExportToKey && MonthsListKey != GeePathKey;
    assert MonthsListKey != GdrivePathKey && MonthsListKey != RegionsPathKey;
  }

  // ---------------------------------------------------------------------------
  // print_config

  const Mask := "********"

  /** The settings as `print_config` shows them: every present key listed in
      `keys` reads as the mask, every other entry as it is. */
  function MaskedView(config: map<string, ConfigValue>, keys: seq<string>): map<string, ConfigValue> {
    map k | k in config :: if k in keys then Str(Mask) else config[k]
  }

  /** The masking loop of `print_config` on a copy of the settings: the
      private settings and the extra keys given are masked where present;
      nothing else changes and no key is added. */
  method PrintConfig(config: map<string, ConfigValue>, keysToMask: seq<string>) returns (masked: map<string, ConfigValue>)
    ensures masked.Keys == config.Keys
    ensures forall k :: k in config && k in PrivateConfigs + keysToMask ==> masked[k] == Str(Mask)
    ensures forall k :: k in config && k !in PrivateConfigs + keysToMask ==> masked[k] == config[k]
  {
    var keys := PrivateConfigs + keysToMask;
    masked := config;
    var i := 0;
    while i < |keys|
      invariant 0 <= i <= |keys|
      invariant masked.Keys == config.Keys
      invariant forall k :: k in config ==> masked[k] == if k in keys[..i] then Str(Mask) else config[k]
    {
      if keys[i] in masked {
        masked := masked[keys[i] := Str(Mask)];
      }
      assert keys[..i + 1] == keys[..i] + [keys[i]];
      i := i + 1;
    }
    assert keys[..i] == keys;
  }

  /** The loop computes the masked view. */
  method PrintConfigIsMaskedView(config: map<string, ConfigValue>, keysToMask: seq<string>) returns (masked: map<string, ConfigValue>)
    ensures masked == MaskedView(config, PrivateConfigs + keysToMask)
  {
    masked := PrintConfig(config, keysToMask);
  }

  /** The SMTP password never shows, whatever extra keys are given. */
  lemma PasswordMasked(config: map<string, ConfigValue>, keysToMask: seq<string>)
    requires SmtpPasswordKey in config
    ensures MaskedView(config, PrivateConfigs + keysToMask)[SmtpPasswordKey] == Str(Mask)
  {
    assert SmtpPasswordKey in PrivateConfigs + keysToMask;
  }

  /** Masking an already masked view changes nothing. */
  lemma MaskIdempotent(config: map<string, ConfigValue>, keys: seq<string>)
    ensures MaskedView(MaskedView(config, keys), keys) == MaskedView(config, keys)
  {
  }
}
