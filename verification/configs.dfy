/** The default settings of snow_ipa and the names of the settings the
    other modules read. */
module Configs {
  import opened Utils

  const UserKey := "user"
  const CredentialsKey := "service_credentials_file"
  const ExportToKey := "export_to"
  const GeePathKey := "gee_assets_path"
  const GdrivePathKey := "gdrive_assets_path"
  const RegionsPathKey := "regions_asset_path"
  const MonthsListKey := "months_list"
  const SmtpPasswordKey := "smtp_password"
  const LogLevelKey := "log_level"

  /** The three export destinations a run can be configured with. */
  const ToAsset := "toAsset"
  const ToDrive := "toDrive"
  const ToAssetAndDrive := "toAssetAndDrive"

  const DefaultExportTo := ToAsset
  const DefaultLogLevel := "INFO"

  /** `DEFAULT_CONFIG`: every setting the package knows, with its default. */
  function DefaultConfig(): (m: map<string, ConfigValue>)
    ensures CredentialsKey in m && m[CredentialsKey] == NoneValue
    ensures ExportToKey in m && m[ExportToKey] == Str(DefaultExportTo)
    ensures GeePathKey in m && GdrivePathKey in m && RegionsPathKey in m && MonthsListKey in m
    ensures LogLevelKey in m && m[LogLevelKey] == Str(DefaultLogLevel)
    ensures SmtpPasswordKey in m
  {
    OtherDefaults() + map[
      CredentialsKey := NoneValue,
      ExportToKey := Str(DefaultExportTo),
      GeePathKey := NoneValue,
      GdrivePathKey := NoneValue,
      RegionsPathKey := NoneValue,
      MonthsListKey := NoneValue,
      SmtpPasswordKey := NoneValue,
      LogLevelKey := Str(DefaultLogLevel)
    ]
  }

  /** The defaults of the settings no other module reads by name. */
  function OtherDefaults(): map<string, ConfigValue> {
    map[
      UserKey := NoneValue,
      "enable_email" := Bool(false),
      "smtp_server" := NoneValue,
      "smtp_port" := NoneValue,
      "smtp_username" := NoneValue,
      "smtp_username_file" := NoneValue,
      "smtp_password_file" := NoneValue,
      "smtp_from_address" := NoneValue,
      "smtp_to_address" := NoneValue,
      "log_file" := Str("./snow.log"),
      "log_format" := Str("%(asctime)s %(name)s %(levelname)s: %(message)s"),
      "log_date_format" := Str("%Y-%m-%d %H:%M:%S"),
      "status_check_wait" := Int(30),
      "max_exports" := Int(10),
      "modis_min_month" := Str("2000-03")
    ]
  }

  /** `PRIVATE_CONFIGS`: settings never shown in clear. */
  const PrivateConfigs: seq<string> := [SmtpPasswordKey]
}
