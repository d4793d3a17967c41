/**
 * The installed build's OTA identity as Utils caches it (otaid, otaver,
 * otadate), how readRomOtaProp / readKernelOtaProp fill it from a property
 * file, and the three lazy accessors over it, stated on values.
 */
module OtaProp {
  import opened Options
  import opened Device

  /** The three cached fields of one property file; None is the field still being null. */
  datatype Fields = Fields(id: Option<string>, ver: Option<string>, date: Option<Date>)

  const Unset: Fields := Fields(None, None, None)

  /** A value handed back by an accessor together with the cache it leaves behind. */
  datatype Access<V, C> = Access(value: V, cache: C)

  /**
   * The fields are filled in the order the reader writes them: a version is
   * only ever set after an id, a date only after a version.
   */
  predicate InOrder(f: Fields) {
    (f.ver.Some? ==> f.id.Some?) && (f.date.Some? ==> f.ver.Some?)
  }

  function CatCommand(propFile: string): string {
    "cat " + propFile
  }

  /**
   * readRomOtaProp / readKernelOtaProp: when the file is present and `cat`
   * prints something that parses as JSON, write id, then version, then date;
   * a missing key throws and leaves the remaining fields as they were.
   */
  function ReadOtaProp(env: Env, propFile: string, f: Fields): (r: Fields)
    ensures !IsOtaEnabled(env, propFile) || Run(env, CatCommand(propFile)) == "" ==> r == f
    ensures Run(env, CatCommand(propFile)) !in env.json ==> r == f
    ensures InOrder(f) ==> InOrder(r)
  {
    if !IsOtaEnabled(env, propFile) then f
    else
      var out := Run(env, CatCommand(propFile));
      if |out| == 0 || out !in env.json then f
      else
        var obj := env.json[out];
        if "otaid" !in obj then f
        else if "otaver" !in obj then f.(id := Some(obj["otaid"]))
        else if "otadate" !in obj then f.(id := Some(obj["otaid"]), ver := Some(obj["otaver"]))
        else Fields(Some(obj["otaid"]), Some(obj["otaver"]), ParseDate(env, obj["otadate"]))
  }

  /** Reading the same file twice leaves what reading it once left. */
  lemma ReadOtaPropIdempotent(env: Env, propFile: string, f: Fields)
    ensures ReadOtaProp(env, propFile, ReadOtaProp(env, propFile, f)) == ReadOtaProp(env, propFile, f)
  {
  }

  /**
   * A file holding all three keys sets all three fields, whatever they held;
   * a date the parser rejects leaves the date null.
   */
  lemma ReadAllKeys(env: Env, propFile: string, f: Fields)
    requires IsOtaEnabled(env, propFile)
    requires Run(env, CatCommand(propFile)) != ""
    requires Run(env, CatCommand(propFile)) in env.json
    requires var obj := env.json[Run(env, CatCommand(propFile))];
      "otaid" in obj && "otaver" in obj && "otadate" in obj
    ensures var obj := env.json[Run(env, CatCommand(propFile))];
      ReadOtaProp(env, propFile, f)
      == Fields(Some(obj["otaid"]), Some(obj["otaver"]), ParseDate(env, obj["otadate"]))
    ensures var obj := env.json[Run(env, CatCommand(propFile))];
      obj["otadate"] !in env.dates ==> ReadOtaProp(env, propFile, f).date.None?
  {
  }

  /** A missing key stops the writes: the fields before it are set, the ones after it kept. */
  lemma ReadStopsAtMissingKey(env: Env, propFile: string, f: Fields)
    requires IsOtaEnabled(env, propFile)
    requires Run(env, CatCommand(propFile)) != ""
    requires Run(env, CatCommand(propFile)) in env.json
    ensures var obj := env.json[Run(env, CatCommand(propFile))];
      var r := ReadOtaProp(env, propFile, f);
      && ("otaid" !in obj ==> r == f)
      && ("otaid" in obj && "otaver" !in obj ==> r == Fields(Some(obj["otaid"]), f.ver, f.date))
      && ("otaid" in obj && "otaver" in obj && "otadate" !in obj
          ==> r == Fields(Some(obj["otaid"]), Some(obj["otaver"]), f.date))
  {
  }

  /** getRomOtaID / getKernelOtaID. */
  function OtaId(env: Env, propFile: string, f: Fields): (r: Access<Option<string>, Fields>)
    ensures !IsOtaEnabled(env, propFile) ==> r.value.None? && r.cache == f
    ensures IsOtaEnabled(env, propFile) ==> r.value == r.cache.id
    ensures f.id.Some? ==> r.cache == f
    ensures IsOtaEnabled(env, propFile) && f.id.None? ==> r.cache == ReadOtaProp(env, propFile, f)
    ensures InOrder(f) ==> InOrder(r.cache)
  {
    if !IsOtaEnabled(env, propFile) then Access(None, f)
    else
      var g := if f.id.None? then ReadOtaProp(env, propFile, f) else f;
      Access(g.id, g)
  }

  /** getRomOtaVersion / getKernelOtaVersion. */
  function OtaVersion(env: Env, propFile: string, f: Fields): (r: Access<Option<string>, Fields>)
    ensures !IsOtaEnabled(env, propFile) ==> r.value.None? && r.cache == f
    ensures IsOtaEnabled(env, propFile) ==> r.value == r.cache.ver
    ensures f.ver.Some? ==> r.cache == f
    ensures IsOtaEnabled(env, propFile) && f.ver.None? ==> r.cache == ReadOtaProp(env, propFile, f)
    ensures InOrder(f) ==> InOrder(r.cache)
  {
    if !IsOtaEnabled(env, propFile) then Access(None, f)
    else
      var g := if f.ver.None? then ReadOtaProp(env, propFile, f) else f;
      Access(g.ver, g)
  }

  /** getRomOtaDate / getKernelOtaDate. */
  function OtaDate(env: Env, propFile: string, f: Fields): (r: Access<Option<Date>, Fields>)
    ensures !IsOtaEnabled(env, propFile) ==> r.value.None? && r.cache == f
    ensures IsOtaEnabled(env, propFile) ==> r.value == r.cache.date
    ensures f.date.Some? ==> r.cache == f
    ensures IsOtaEnabled(env, propFile) && f.date.None? ==> r.cache == ReadOtaProp(env, propFile, f)
    ensures InOrder(f) ==> InOrder(r.cache)
  {
    if !IsOtaEnabled(env, propFile) then Access(None, f)
    else
      var g := if f.date.None? then ReadOtaProp(env, propFile, f) else f;
      Access(g.date, g)
  }

  /**
   * Fill once: a value an accessor has handed out is handed out again by the
   * next call, without reading the file, however the file has changed since,
   * as long as the file is still present.
   */
  lemma CachedValuesAreStable(env: Env, later: Env, propFile: string, f: Fields)
    requires IsOtaEnabled(later, propFile)
    ensures var a := OtaId(env, propFile, f);
      a.value.Some? ==> OtaId(later, propFile, a.cache) == a
    ensures var a := OtaVersion(env, propFile, f);
      a.value.Some? ==> OtaVersion(later, propFile, a.cache) == a
    ensures var a := OtaDate(env, propFile, f);
      a.value.Some? ==> OtaDate(later, propFile, a.cache) == a
  {
  }

  /**
   * Not fill-once in general: a date that is still null makes the date
   * accessor read the file again, and a file that now holds all three keys
   * overwrites the id and version handed out before.
   */
  lemma DateMissRereadsIdAndVersion(env: Env, propFile: string, f: Fields)
    requires f.date.None?
    requires IsOtaEnabled(env, propFile)
    requires Run(env, CatCommand(propFile)) != ""
    requires Run(env, CatCommand(propFile)) in env.json
    requires var obj := env.json[Run(env, CatCommand(propFile))];
      "otaid" in obj && "otaver" in obj && "otadate" in obj
    ensures var obj := env.json[Run(env, CatCommand(propFile))];
      OtaDate(env, propFile, f).cache
      == Fields(Some(obj["otaid"]), Some(obj["otaver"]), ParseDate(env, obj["otadate"]))
  {
    ReadAllKeys(env, propFile, f);
  }

  /** A concrete case: version "1" handed out, then a date access replaces it by "2". */
  lemma DateMissOverwritesVersionExample(env: Env, propFile: string)
    requires IsOtaEnabled(env, propFile)
    requires Run(env, CatCommand(propFile)) == "{b2}"
    requires env.json == map["{b2}" := map["otaid" := "b", "otaver" := "2", "otadate" := "20230101-0930"]]
    ensures var f := Fields(Some("a"), Some("1"), None);
      && OtaVersion(env, propFile, f).value == Some("1")
      && OtaVersion(env, propFile, OtaDate(env, propFile, f).cache).value == Some("2")
  {
  }

  /**
   * On an in-order cache, the date the date accessor returns after the
   * version accessor has run is the one it returns on the cache as it was.
   */
  lemma DateAfterVersionAccess(env: Env, propFile: string, f: Fields)
    requires InOrder(f)
    ensures OtaDate(env, propFile, OtaVersion(env, propFile, f).cache).value == OtaDate(env, propFile, f).value
  {
    if IsOtaEnabled(env, propFile) && f.ver.None? {
      ReadOtaPropIdempotent(env, propFile, f);
    }
  }
}
