/** getRomVersion: the installed ROM's version label from the first property that has one. */
module RomVersion {
  import opened Device

  /** The first non-empty string of `outputs`, or `fallback` when every one is empty. */
  function FirstNonEmpty(outputs: seq<string>, fallback: string): (r: string)
    ensures (forall i :: 0 <= i < |outputs| ==> outputs[i] == "") ==> r == fallback
    ensures forall k ::
              0 <= k < |outputs| && outputs[k] != "" && (forall j :: 0 <= j < k ==> outputs[j] == "")
              ==> r == outputs[k]
  {
    if outputs == [] then fallback
    else if outputs[0] != "" then outputs[0]
    else
      var r := FirstNonEmpty(outputs[1..], fallback);
      assert forall k :: 1 <= k < |outputs| ==> outputs[k] == outputs[1..][k - 1];
      r
  }

  /** The three queries, in the order getRomVersion tries them. */
  const VersionQueries: seq<string> := ["getprop ro.modversion", "getprop ro.cm.version", "getprop ro.aokp.version"]

  /**
   * getRomVersion: ro.modversion, else ro.cm.version, else ro.aokp.version,
   * else Build.DISPLAY. It reads no cached field and stores nothing.
   */
  function GetRomVersion(env: Env): (r: string)
    ensures r == FirstNonEmpty([Run(env, VersionQueries[0]), Run(env, VersionQueries[1]), Run(env, VersionQueries[2])], env.display)
  {
    var modversion := Run(env, "getprop ro.modversion");
    if |modversion| != 0 then modversion
    else
      var cmversion := Run(env, "getprop ro.cm.version");
      if |cmversion| != 0 then cmversion
      else
        var aokpversion := Run(env, "getprop ro.aokp.version");
        if |aokpversion| != 0 then aokpversion
        else env.display
  }
}
