/**
 * isRomUpdate / isKernelUpdate: whether a candidate build described by the
 * update server is newer than the installed one.
 */
module UpdateCheck {
  import opened Options
  import opened Device
  import opened CaseFold
  import opened OtaProp

  /** The two fields of RomInfo / KernelInfo that the decision reads. */
  datatype BuildInfo = BuildInfo(version: Option<string>, date: Option<Date>)

  /**
   * The decision on given installed values. An update is available when the
   * candidate names a version and the installed one is unknown or differs up
   * to case, or when it names a date and the installed one is unknown or
   * strictly earlier; a null candidate is never an update.
   */
  function IsUpdate(info: Option<BuildInfo>, installedVer: Option<string>, installedDate: Option<Date>): (r: bool)
    ensures r <==> (
      && info.Some?
      && (|| (info.value.version.Some? &&
              (installedVer.None? || Lowered(info.value.version.value) != Lowered(installedVer.value)))
          || (info.value.date.Some? &&
              (installedDate.None? || info.value.date.value > installedDate.value))))
  {
    if info.None? then false
    else
      var c := info.value;
      SameVersionIffSameLowered(c.version, installedVer);
      if c.version.Some? && (installedVer.None? || !EqualsIgnoreCase(c.version.value, installedVer.value)) then
        true
      else
        c.date.Some? && (installedDate.None? || After(c.date.value, installedDate.value))
  }

  lemma SameVersionIffSameLowered(v: Option<string>, w: Option<string>)
    ensures v.Some? && w.Some? ==> (EqualsIgnoreCase(v.value, w.value) <==> Lowered(v.value) == Lowered(w.value))
  {
    if v.Some? && w.Some? {
      EqualsIgnoreCaseIffSameLowered(v.value, w.value);
    }
  }

  /** A candidate that repeats the installed version (up to case) and date is no update. */
  lemma SameBuildIsNoUpdate(v: string, installedVer: string, d: Date)
    requires EqualsIgnoreCase(v, installedVer)
    ensures !IsUpdate(Some(BuildInfo(Some(v), Some(d))), Some(installedVer), Some(d))
  {
    EqualsIgnoreCaseIffSameLowered(v, installedVer);
  }

  /** A candidate naming neither a version nor a date is no update, whatever is installed. */
  lemma NothingToCompare(installedVer: Option<string>, installedDate: Option<Date>)
    ensures !IsUpdate(Some(BuildInfo(None, None)), installedVer, installedDate)
    ensures !IsUpdate(None, installedVer, installedDate)
  {
  }

  /** With nothing recorded as installed, any candidate naming a version or a date is an update. */
  lemma NothingInstalled(c: BuildInfo)
    ensures IsUpdate(Some(c), None, None) <==> c.version.Some? || c.date.Some?
  {
  }

  /** Versions compare up to case; dates compare strictly. */
  lemma DecisionExamples(d: Date)
    ensures !IsUpdate(Some(BuildInfo(Some("A1"), None)), Some("a1"), None)
    ensures IsUpdate(Some(BuildInfo(Some("A1"), None)), Some("a2"), None)
    ensures !IsUpdate(Some(BuildInfo(None, Some(d))), Some("x"), Some(d))
    ensures IsUpdate(Some(BuildInfo(None, Some(d + 60000))), Some("x"), Some(d))
  {
    assert EqualsIgnoreCase("A1", "a1");
    assert !CharEqualsIgnoreCase('1', '2');
  }

  /**
   * isRomUpdate / isKernelUpdate as they run against the cache: ask the
   * version accessor (isRomUpdate asks it twice; the second call is a cache
   * hit), then, unless that settled it, the date accessor.
   */
  function CheckUpdate(info: Option<BuildInfo>, env: Env, propFile: string, f: Fields): (r: Access<bool, Fields>)
    ensures info.None? ==> r == Access(false, f)
    ensures r.cache == f || r.cache == ReadOtaProp(env, propFile, f)
    ensures InOrder(f) ==> InOrder(r.cache)
  {
    if info.None? then Access(false, f)
    else if info.value.version.Some? then
      var v := OtaVersion(env, propFile, f);
      if v.value.None? || !EqualsIgnoreCase(info.value.version.value, v.value.value) then Access(true, v.cache)
      else CheckDate(info.value, env, propFile, v.cache)
    else CheckDate(info.value, env, propFile, f)
  }

  /** The date half of isRomUpdate: one call of the date accessor, then `after`. */
  function CheckDate(c: BuildInfo, env: Env, propFile: string, f: Fields): (r: Access<bool, Fields>)
    ensures c.date.None? ==> r == Access(false, f)
    ensures r.value <==> c.date.Some? && (OtaDate(env, propFile, f).value.None? || c.date.value > OtaDate(env, propFile, f).value.value)
    ensures r.cache == f || r.cache == ReadOtaProp(env, propFile, f)
  {
    if c.date.None? then Access(false, f)
    else
      var d := OtaDate(env, propFile, f);
      Access(d.value.None? || After(c.date.value, d.value.value), d.cache)
  }

  /**
   * Running the check against an in-order cache decides exactly as the rule
   * does on the installed version and date the accessors report for that
   * cache, and leaves the cache in order.
   */
  lemma CheckUpdateDecides(info: Option<BuildInfo>, env: Env, propFile: string, f: Fields)
    requires InOrder(f)
    ensures CheckUpdate(info, env, propFile, f).value
      == IsUpdate(info, OtaVersion(env, propFile, f).value, OtaDate(env, propFile, f).value)
    ensures InOrder(CheckUpdate(info, env, propFile, f).cache)
  {
    DateAfterVersionAccess(env, propFile, f);
  }
}
