/**
 * The nine process-wide cache fields of Utils and the accessors that fill
 * them, as one object whose methods change its fields in place.
 */
module IdentityCache {
  import opened Options
  import CaseFold
  import opened Device
  import opened OtaProp
  import opened UpdateCheck

  const UnameCommand: string := "uname -r -v"
  const SdCardDefault: string := "sdcard"

  /**
   * getKernelVersion's rule: hand out the cached value; with nothing cached,
   * store and hand out the command's output, unless it is empty, in which
   * case hand out null and store nothing.
   */
  function FillOnce(cached: Option<string>, output: string): (a: Access<Option<string>, Option<string>>)
    ensures cached.Some? ==> a.value == cached && a.cache == cached
    ensures cached.None? && output == "" ==> a.value.None? && a.cache.None?
    ensures cached.None? && output != "" ==> a.value == Some(output) && a.cache == Some(output)
  {
    if cached.Some? then Access(cached, cached)
    else if |output| == 0 then Access(None, None)
    else Access(Some(output), Some(output))
  }

  /** getOSSdPath / getRcvrySdPath: the same rule, with "sdcard" in place of null. */
  function SdPath(cached: Option<string>, output: string): (a: Access<string, Option<string>>)
    ensures a.cache == FillOnce(cached, output).cache
    ensures a.cache.Some? ==> a.value == a.cache.value
    ensures a.cache.None? ==> a.value == SdCardDefault
  {
    var f := FillOnce(cached, output);
    Access(if f.value.Some? then f.value.value else SdCardDefault, f.cache)
  }

  /** Once a value is stored, later calls hand it out whatever the command prints then. */
  lemma FillOnceIsStable(cached: Option<string>, output: string, later: string)
    ensures var a := FillOnce(cached, output);
      a.cache.Some? ==> FillOnce(a.cache, later) == a
    ensures var a := SdPath(cached, output);
      a.cache.Some? ==> SdPath(a.cache, later) == a
  {
  }

  /** Utils' static fields; None is a field still holding null. */
  class Cache {
    var romId: Option<string>
    var romDate: Option<Date>
    var romVer: Option<string>

    var kernelId: Option<string>
    var kernelDate: Option<Date>
    var kernelVer: Option<string>
    var kernelUname: Option<string>

    var osSdPath: Option<string>
    var rcvrySdPath: Option<string>

    function Rom(): Fields
      reads this
    {
      Fields(romId, romVer, romDate)
    }

    function Kernel(): Fields
      reads this
    {
      Fields(kernelId, kernelVer, kernelDate)
    }

    /** Each property file's fields were written in the reader's order. */
    ghost predicate Valid()
      reads this
    {
      InOrder(Rom()) && InOrder(Kernel())
    }

    /** The fields as the process starts: all null. */
    constructor ()
      ensures Valid()
      ensures Rom() == Unset && Kernel() == Unset
      ensures kernelUname.None? && osSdPath.None? && rcvrySdPath.None?
    {
      romId, romDate, romVer := None, None, None;
      kernelId, kernelDate, kernelVer, kernelUname := None, None, None, None;
      osSdPath, rcvrySdPath := None, None;
    }

    method ReadRomOtaProp(env: Env)
      requires Valid()
      modifies this`romId, this`romVer, this`romDate
      ensures Valid()
      ensures Rom() == ReadOtaProp(env, RomOtaProp, old(Rom()))
    {
      if !IsOtaEnabled(env, RomOtaProp) { return; }
      var out := Run(env, CatCommand(RomOtaProp));
      if |out| == 0 { return; }
      if out !in env.json { return; }   // the JSONObject constructor throws
      var obj := env.json[out];
      if "otaid" !in obj { return; }
      romId := Some(obj["otaid"]);
      if "otaver" !in obj { return; }
      romVer := Some(obj["otaver"]);
      if "otadate" !in obj { return; }
      romDate := ParseDate(env, obj["otadate"]);
    }

    method ReadKernelOtaProp(env: Env)
      requires Valid()
      modifies this`kernelId, this`kernelVer, this`kernelDate
      ensures Valid()
      ensures Kernel() == ReadOtaProp(env, KernelOtaProp, old(Kernel()))
    {
      if !IsOtaEnabled(env, KernelOtaProp) { return; }
      var out := Run(env, CatCommand(KernelOtaProp));
      if |out| == 0 { return; }
      if out !in env.json { return; }   // the JSONObject constructor throws
      var obj := env.json[out];
      if "otaid" !in obj { return; }
      kernelId := Some(obj["otaid"]);
      if "otaver" !in obj { return; }
      kernelVer := Some(obj["otaver"]);
      if "otadate" !in obj { return; }
      kernelDate := ParseDate(env, obj["otadate"]);
    }

    method GetRomOtaID(env: Env) returns (r: Option<string>)
      requires Valid()
      modifies this`romId, this`romVer, this`romDate
      ensures Valid()
      ensures r == OtaId(env, RomOtaProp, old(Rom())).value
      ensures Rom() == OtaId(env, RomOtaProp, old(Rom())).cache
    {
      if !IsOtaEnabled(env, RomOtaProp) { return None; }
      if romId.None? {
        ReadRomOtaProp(env);
      }
      return romId;
    }

    method GetRomOtaDate(env: Env) returns (r: Option<Date>)
      requires Valid()
      modifies this`romId, this`romVer, this`romDate
      ensures Valid()
      ensures r == OtaDate(env, RomOtaProp, old(Rom())).value
      ensures Rom() == OtaDate(env, RomOtaProp, old(Rom())).cache
    {
      if !IsOtaEnabled(env, RomOtaProp) { return None; }
      if romDate.None? {
        ReadRomOtaProp(env);
      }
      return romDate;
    }

    method GetRomOtaVersion(env: Env) returns (r: Option<string>)
      requires Valid()
      modifies this`romId, this`romVer, this`romDate
      ensures Valid()
      ensures r == OtaVersion(env, RomOtaProp, old(Rom())).value
      ensures Rom() == OtaVersion(env, RomOtaProp, old(Rom())).cache
    {
      if !IsOtaEnabled(env, RomOtaProp) { return None; }
      if romVer.None? {
        ReadRomOtaProp(env);
      }
      return romVer;
    }

    method GetKernelOtaID(env: Env) returns (r: Option<string>)
      requires Valid()
      modifies this`kernelId, this`kernelVer, this`kernelDate
      ensures Valid()
      ensures r == OtaId(env, KernelOtaProp, old(Kernel())).value
      ensures Kernel() == OtaId(env, KernelOtaProp, old(Kernel())).cache
    {
      if !IsOtaEnabled(env, KernelOtaProp) { return None; }
      if kernelId.None? {
        ReadKernelOtaProp(env);
      }
      return kernelId;
    }

    method GetKernelOtaDate(env: Env) returns (r: Option<Date>)
      requires Valid()
      modifies this`kernelId, this`kernelVer, this`kernelDate
      ensures Valid()
      ensures r == OtaDate(env, KernelOtaProp, old(Kernel())).value
      ensures Kernel() == OtaDate(env, KernelOtaProp, old(Kernel())).cache
    {
      if !IsOtaEnabled(env, KernelOtaProp) { return None; }
      if kernelDate.None? {
        ReadKernelOtaProp(env);
      }
      return kernelDate;
    }

    method GetKernelOtaVersion(env: Env) returns (r: Option<string>)
      requires Valid()
      modifies this`kernelId, this`kernelVer, this`kernelDate
      ensures Valid()
      ensures r == OtaVersion(env, KernelOtaProp, old(Kernel())).value
      ensures Kernel() == OtaVersion(env, KernelOtaProp, old(Kernel())).cache
    {
      if !IsOtaEnabled(env, KernelOtaProp) { return None; }
      if kernelVer.None? {
        ReadKernelOtaProp(env);
      }
      return kernelVer;
    }

    method GetKernelVersion(env: Env) returns (r: Option<string>)
      modifies this`kernelUname
      ensures r == FillOnce(old(kernelUname), Run(env, UnameCommand)).value
      ensures kernelUname == FillOnce(old(kernelUname), Run(env, UnameCommand)).cache
    {
      if kernelUname.None? {
        var out := Run(env, "uname -r -v");
        if |out| == 0 { return None; }
        kernelUname := Some(out);
      }
      return kernelUname;
    }

    method GetOSSdPath(env: Env) returns (r: string)
      modifies this`osSdPath
      ensures r == SdPath(old(osSdPath), Run(env, "getprop " + env.osSdPathProp)).value
      ensures osSdPath == SdPath(old(osSdPath), Run(env, "getprop " + env.osSdPathProp)).cache
    {
      if osSdPath.None? {
        var out := Run(env, "getprop " + env.osSdPathProp);
        if |out| == 0 { return "sdcard"; }
        osSdPath := Some(out);
      }
      return osSdPath.value;
    }

    method GetRcvrySdPath(env: Env) returns (r: string)
      modifies this`rcvrySdPath
      ensures r == SdPath(old(rcvrySdPath), Run(env, "getprop " + env.recoverySdPathProp)).value
      ensures rcvrySdPath == SdPath(old(rcvrySdPath), Run(env, "getprop " + env.recoverySdPathProp)).cache
    {
      if rcvrySdPath.None? {
        var out := Run(env, "getprop " + env.recoverySdPathProp);
        if |out| == 0 { return "sdcard"; }
        rcvrySdPath := Some(out);
      }
      return rcvrySdPath.value;
    }

    /**
     * isRomUpdate: the decision rule on the installed version and date the
     * ROM accessors report for the cache as it was; only the ROM fields may
     * be filled on the way.
     */
    method IsRomUpdate(info: Option<BuildInfo>, env: Env) returns (r: bool)
      requires Valid()
      modifies this`romId, this`romVer, this`romDate
      ensures Valid()
      ensures r == IsUpdate(info, OtaVersion(env, RomOtaProp, old(Rom())).value, OtaDate(env, RomOtaProp, old(Rom())).value)
      ensures Access(r, Rom()) == CheckUpdate(info, env, RomOtaProp, old(Rom()))
    {
      CheckUpdateDecides(info, env, RomOtaProp, Rom());
      if info.None? { return false; }
      var c := info.value;
      if c.version.Some? {
        var installed := GetRomOtaVersion(env);
        if installed.None? { return true; }
        var again := GetRomOtaVersion(env);
        if again.None? || !CaseFold.EqualsIgnoreCase(c.version.value, again.value) { return true; }
      }
      if c.date.Some? {
        var installed := GetRomOtaDate(env);
        if installed.None? { return true; }
        var again := GetRomOtaDate(env);
        if After(c.date.value, again.value) { return true; }
      }
      return false;
    }

    /** isKernelUpdate: the same rule on the kernel accessors; the ROM fields play no part. */
    method IsKernelUpdate(info: Option<BuildInfo>, env: Env) returns (r: bool)
      requires Valid()
      modifies this`kernelId, this`kernelVer, this`kernelDate
      ensures Valid()
      ensures r == IsUpdate(info, OtaVersion(env, KernelOtaProp, old(Kernel())).value, OtaDate(env, KernelOtaProp, old(Kernel())).value)
      ensures Access(r, Kernel()) == CheckUpdate(info, env, KernelOtaProp, old(Kernel()))
    {
      CheckUpdateDecides(info, env, KernelOtaProp, Kernel());
      if info.None? { return false; }
      var c := info.value;
      if c.version.Some? {
        var installed := GetKernelOtaVersion(env);
        if installed.None? { return true; }
        var again := GetKernelOtaVersion(env);
        if again.None? || !CaseFold.EqualsIgnoreCase(c.version.value, again.value) { return true; }
      }
      if c.date.Some? {
        var installed := GetKernelOtaDate(env);
        if installed.None? { return true; }
        var again := GetKernelOtaDate(env);
        if After(c.date.value, again.value) { return true; }
      }
      return false;
    }
  }
}
