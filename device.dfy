/**
 * What the update logic reads from the device, given as plain values: which
 * files exist, what each shell command prints, how the JSON and date parsers
 * answer, and the platform's display string. Nothing here runs anything.
 */
module Device {
  import opened Options

  /** A point in time as `java.util.Date.getTime()` gives it: milliseconds since the epoch. */
  type Date = int

  /** A parsed JSON object: `getString(key)` gives `obj[key]`; a key not in the map throws. */
  type JsonObject = map<string, string>

  datatype Env = Env(
    files: set<string>,              // the paths for which File.exists() holds
    shell: map<string, string>,      // command line -> standard output
    json: map<string, JsonObject>,   // text -> parsed object; any other text is malformed
    dates: map<string, Date>,        // text -> date read with pattern yyyyMMdd-kkmm; any other text fails
    display: string,                 // Build.DISPLAY
    osSdPathProp: string,            // the property named by Config.OTA_SD_PATH_OS_PROP
    recoverySdPathProp: string)      // the property named by Config.OTA_SD_PATH_RECOVERY_PROP

  const RomOtaProp: string := "/system/rom.ota.prop"
  const KernelOtaProp: string := "/system/kernel.ota.prop"

  /**
   * Standard output of `command`. A command that prints nothing and one that
   * could not be started both give "", as with the ShellCommand wrapper Utils uses.
   */
  function Run(env: Env, command: string): string {
    if command in env.shell then env.shell[command] else ""
  }

  /** isRomOtaEnabled / isKernelOtaEnabled: the property file exists. */
  predicate IsOtaEnabled(env: Env, propFile: string) {
    propFile in env.files
  }

  /**
   * The two flags are independent: each is decided by its own file alone, so
   * adding or removing the other file leaves it as it was.
   */
  lemma OtaFlagsAreIndependent(env: Env)
    ensures IsOtaEnabled(env.(files := env.files + {KernelOtaProp}), RomOtaProp) == IsOtaEnabled(env, RomOtaProp)
    ensures IsOtaEnabled(env.(files := env.files - {KernelOtaProp}), RomOtaProp) == IsOtaEnabled(env, RomOtaProp)
    ensures IsOtaEnabled(env.(files := env.files + {RomOtaProp}), KernelOtaProp) == IsOtaEnabled(env, KernelOtaProp)
    ensures IsOtaEnabled(env.(files := env.files - {RomOtaProp}), KernelOtaProp) == IsOtaEnabled(env, KernelOtaProp)
  {
  }

  /** parseDate on a non-null text: a text the pattern rejects gives null. */
  function ParseDate(env: Env, text: string): Option<Date> {
    if text in env.dates then Some(env.dates[text]) else None
  }

  /** java.util.Date.after: strictly later. */
  predicate After(a: Date, b: Date) {
    a > b
  }
}
