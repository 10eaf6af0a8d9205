/** The two settings the modelled components read.  `DEFAULT_MODEL` may override
    the default model key from the environment, so the settings are a value passed
    around rather than constants baked into the components. */
module Settings {

  datatype AppSettings = AppSettings(
    maxFilenameDisplay: int,   // UISettings.max_filename_display
    defaultModel: string       // ModelSettings.default_model
  )

  /** The values the settings classes hold when no environment variable is set. */
  const Defaults: AppSettings := AppSettings(40, "htdemucs_ft")
}
