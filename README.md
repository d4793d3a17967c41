# OTA Updater 2.0: installed-build bookkeeping and update decision, in Dafny

This project models the part of `Utils` in the OTA Updater Android app that
records which ROM and kernel build are installed and decides whether a
candidate build offered by the update server is newer. It covers:

- **The identity cache.** Nine static, nullable fields become the `Option`
  fields of one `IdentityCache.Cache` object. Lazy accessors fill them:
  - `getRomOta*` and `getKernelOta*` first check that the property file
    exists, then read it only while the field is still null.
  - `getKernelVersion`, `getOSSdPath` and `getRcvrySdPath` store a command's
    output only when it is non-empty.
- **The property reader.** `readRomOtaProp` and `readKernelOtaProp` write
  `otaid`, then `otaver`, then `otadate`. A missing key stops the writes that
  remain.
- **The update comparator.** `isRomUpdate` and `isKernelUpdate` declare an
  update when either holds:
  - the candidate has a version that the installed one lacks or differs from
    up to case;
  - the candidate has a date that the installed one lacks or that is strictly
    later.
- **The ROM version label.** `getRomVersion` returns the first non-empty
  answer of `ro.modversion`, `ro.cm.version` and `ro.aokp.version`, else
  `Build.DISPLAY`.
- **The hex encoder.** `byteArrToStr` writes bytes as lowercase hex, two
  characters per byte, high nibble first.

The device is a value, `Device.Env`, and nothing is executed. It holds:

- the paths `File.exists` accepts;
- the standard output of each shell command (a command missing from the map
  prints nothing, the same as one that failed to start);
- the text-to-object answers of the JSON parser (any other text is malformed
  and throws);
- the text-to-date answers of the `yyyyMMdd-kkmm` date parser (any other text
  gives null);
- `Build.DISPLAY`;
- the names of the two SD-card path properties, which `Config` supplies.

A date is an `int` of milliseconds, and `Date.after` is `>`.

The model follows the code where the code is not a strict fill-once cache:

- A read that stops at a missing key keeps the fields it already wrote.
- A date that fails to parse is stored as null, so the next date access reads
  the file again.
- A date that is still null makes the date accessor re-read the whole file.
  If the file has changed, that read overwrites the id and version already
  handed out (`OtaProp.DateMissRereadsIdAndVersion`). Only values that an
  accessor returned non-null, and that no later read overwrites, are stable.
- `getRomVersion` caches nothing.
- `getKernelVersion` and the SD-path accessors return null or `"sdcard"` on
  empty output and store nothing.
- Malformed JSON leaves every field as it was, not reset to null.

`Cache.Valid()` is the invariant "fields filled in the reader's order": in
each file's triple, a date is set only after a version, and a version only
after an id. It is what makes the comparator, which calls the version accessor
and then the date accessor, decide on the values each accessor reports for the
cache as it was before the call (`UpdateCheck.CheckUpdateDecides`).

## Model

| member | source | states |
|---|---|---|
| Device.OtaFlagsAreIndependent | src/com/ota/updater/two/utils/Utils.java:142-148 | the ROM flag is the existence of `/system/rom.ota.prop` alone and the kernel flag that of `/system/kernel.ota.prop` alone: adding or removing the other file changes neither |
| CaseFold.CharEqualsIgnoreCaseIffSameLower | src/com/ota/updater/two/utils/Utils.java:300 | the per-character test of `equalsIgnoreCase` (equal, same upper case, or same lower case of the upper case) holds exactly when the two characters have the same lower case |
| CaseFold.EqualsIgnoreCaseIffSameLowered | src/com/ota/updater/two/utils/Utils.java:300 | `equalsIgnoreCase` holds of two strings exactly when their lower-cased forms are equal |
| CaseFold.EqualsIgnoreCaseIsEquivalence | src/com/ota/updater/two/utils/Utils.java:300 | `equalsIgnoreCase` is reflexive, symmetric and transitive |
| OtaProp.ReadOtaProp | src/com/ota/updater/two/utils/Utils.java:242-257 | a missing property file, empty `cat` output or malformed JSON leaves all three fields as they were; a read keeps the fields in write order (date set ⇒ version set ⇒ id set) |
| OtaProp.ReadOtaPropIdempotent | src/com/ota/updater/two/utils/Utils.java:259-274 | reading the same file a second time changes nothing more |
| OtaProp.ReadAllKeys | src/com/ota/updater/two/utils/Utils.java:249-253 | a file with `otaid`, `otaver` and `otadate` sets id and version to their strings and date to the parsed date, whatever was cached; an unparsable date becomes null |
| OtaProp.ReadStopsAtMissingKey | src/com/ota/updater/two/utils/Utils.java:250-256 | no `otaid`: nothing changes; no `otaver`: only the id is written; no `otadate`: id and version are written, the date is kept |
| OtaProp.OtaId | src/com/ota/updater/two/utils/Utils.java:150-156 | disabled: null and the cache is untouched; a set id is returned without a read; enabled with a null id: the cache becomes ReadOtaProp of the old cache; when enabled, the value returned is the id in the resulting cache; write order is kept |
| OtaProp.OtaVersion | src/com/ota/updater/two/utils/Utils.java:166-172 | the same as OtaId, for the version field: a miss fills the cache by ReadOtaProp |
| OtaProp.OtaDate | src/com/ota/updater/two/utils/Utils.java:158-164 | the same as OtaId, for the date field: a miss fills the cache by ReadOtaProp |
| OtaProp.CachedValuesAreStable | src/com/ota/updater/two/utils/Utils.java:150-172 | once an accessor has returned a non-null value, the next call of that same accessor returns it again with the cache unchanged, even if the file's contents change, while the file still exists; a date miss in between can overwrite it (see DateMissRereadsIdAndVersion) |
| OtaProp.DateMissRereadsIdAndVersion | src/com/ota/updater/two/utils/Utils.java:158-164 | with a null date and a file holding all three keys, the date accessor leaves id, version and date as the file gives them, whatever id and version were cached before |
| OtaProp.DateMissOverwritesVersionExample | src/com/ota/updater/two/utils/Utils.java:158-172 | a cache holding version "1" and no date, against a file now holding version "2": the version accessor reports "1" before a date access and "2" after it |
| OtaProp.DateAfterVersionAccess | src/com/ota/updater/two/utils/Utils.java:299-304 | on an in-order cache, the date accessor reports the same date after the version accessor has run as it would have before |
| UpdateCheck.SameVersionIffSameLowered | src/com/ota/updater/two/utils/Utils.java:300 | for two present versions, `equalsIgnoreCase` agrees with equality of the lower-cased strings |
| UpdateCheck.IsUpdate | src/com/ota/updater/two/utils/Utils.java:297-306 | true iff the candidate is non-null and either (version present and installed version null or different in lower case) or (date present and installed date null or strictly earlier) |
| UpdateCheck.SameBuildIsNoUpdate | src/com/ota/updater/two/utils/Utils.java:299-305 | a candidate whose version equals the installed one up to case and whose date equals the installed date is no update |
| UpdateCheck.NothingToCompare | src/com/ota/updater/two/utils/Utils.java:297-305 | a null candidate, or one with neither version nor date, is no update whatever is installed |
| UpdateCheck.NothingInstalled | src/com/ota/updater/two/utils/Utils.java:299-304 | with no installed version or date, a candidate is an update exactly when it has a version or a date |
| UpdateCheck.DecisionExamples | src/com/ota/updater/two/utils/Utils.java:299-305 | "A1" against installed "a1" is no update, against "a2" it is; an equal date is no update, a date one minute later is |
| UpdateCheck.CheckUpdate | src/com/ota/updater/two/utils/Utils.java:297-306 | the accessor-driven check, calling each accessor once: a null candidate gives false with the cache untouched; the cache ends as it was or as one ReadOtaProp of it leaves it; write order is kept |
| UpdateCheck.CheckDate | src/com/ota/updater/two/utils/Utils.java:302-304 | the date half: no candidate date gives false with the cache untouched; otherwise true iff the date accessor reports null or a strictly earlier date; the cache ends as it was or as one ReadOtaProp leaves it |
| UpdateCheck.CheckUpdateDecides | src/com/ota/updater/two/utils/Utils.java:308-317 | the check run through the accessors decides as IsUpdate does on the version and date the accessors report for the cache before the call, and leaves the cache in write order |
| RomVersion.FirstNonEmpty | src/com/ota/updater/two/utils/Utils.java:176-185 | the result is the first non-empty entry when there is one, else the fallback |
| RomVersion.GetRomVersion | src/com/ota/updater/two/utils/Utils.java:174-186 | the label is the first non-empty output of `getprop ro.modversion`, `ro.cm.version`, `ro.aokp.version`, in that order, else `Build.DISPLAY`; no cache field is read or written |
| Hex.Unsigned | src/com/ota/updater/two/utils/Utils.java:359-360 | the byte's two's-complement pattern: in 0..255 and congruent to the signed byte modulo 256 |
| Hex.NibblesAreMasks | src/com/ota/updater/two/utils/Utils.java:359-360 | on the byte's 8-bit pattern, HighNibble equals `(0xF0 & x) >>> 4` and LowNibble equals `0xF & x` |
| Hex.NibblesRebuildByte | src/com/ota/updater/two/utils/Utils.java:359-360 | 16 times the high nibble plus the low nibble is the byte's bit pattern |
| Hex.HexDigitsAreDistinctLowerHex | src/com/ota/updater/two/utils/Utils.java:355 | `HEX_DIGITS` holds the sixteen lowercase hex digits, each once |
| Hex.ByteArrToStr | src/com/ota/updater/two/utils/Utils.java:356-363 | the output has length 2·n; characters 2q and 2q+1 are the digits of byte q's high and low nibble; every character is in `0-9a-f` |
| Hex.SpellsHexInjective | src/com/ota/updater/two/utils/Utils.java:358-361 | different byte sequences never get the same spelling |
| Hex.SpellsHexUnique | src/com/ota/updater/two/utils/Utils.java:357-362 | a byte sequence has exactly one spelling, and the empty sequence's is "" |
| IdentityCache.FillOnce | src/com/ota/updater/two/utils/Utils.java:212-220 | with a cached value, return it unchanged; otherwise empty output returns null and stores nothing, and non-empty output is returned and stored |
| IdentityCache.SdPath | src/com/ota/updater/two/utils/Utils.java:222-240 | the same rule, but returning `"sdcard"` when nothing is stored |
| IdentityCache.FillOnceIsStable | src/com/ota/updater/two/utils/Utils.java:222-230 | once a value is stored, later calls return it whatever the command prints then |
| IdentityCache.Cache.constructor | src/com/ota/updater/two/utils/Utils.java:51-61 | all nine fields start null, which is in write order |
| IdentityCache.Cache.ReadRomOtaProp | src/com/ota/updater/two/utils/Utils.java:242-257 | the ROM triple becomes ReadOtaProp of the old triple; only the three ROM fields may change; write order is kept |
| IdentityCache.Cache.ReadKernelOtaProp | src/com/ota/updater/two/utils/Utils.java:259-274 | the same for the kernel triple |
| IdentityCache.Cache.GetRomOtaID | src/com/ota/updater/two/utils/Utils.java:150-156 | returns OtaId's value for the old ROM triple and leaves its cache; only ROM fields may change |
| IdentityCache.Cache.GetRomOtaDate | src/com/ota/updater/two/utils/Utils.java:158-164 | the same with OtaDate |
| IdentityCache.Cache.GetRomOtaVersion | src/com/ota/updater/two/utils/Utils.java:166-172 | the same with OtaVersion |
| IdentityCache.Cache.GetKernelOtaID | src/com/ota/updater/two/utils/Utils.java:188-194 | OtaId on the kernel triple; only kernel OTA fields may change |
| IdentityCache.Cache.GetKernelOtaDate | src/com/ota/updater/two/utils/Utils.java:196-202 | OtaDate on the kernel triple |
| IdentityCache.Cache.GetKernelOtaVersion | src/com/ota/updater/two/utils/Utils.java:204-210 | OtaVersion on the kernel triple |
| IdentityCache.Cache.GetKernelVersion | src/com/ota/updater/two/utils/Utils.java:212-220 | FillOnce on the uname field with the output of `uname -r -v`; only that field may change |
| IdentityCache.Cache.GetOSSdPath | src/com/ota/updater/two/utils/Utils.java:222-230 | SdPath on the OS path field with the output of `getprop` on the configured property |
| IdentityCache.Cache.GetRcvrySdPath | src/com/ota/updater/two/utils/Utils.java:232-240 | SdPath on the recovery path field |
| IdentityCache.Cache.IsRomUpdate | src/com/ota/updater/two/utils/Utils.java:297-306 | the result is IsUpdate on the ROM version and date the accessors report for the cache before the call; only ROM fields may be filled; write order is kept |
| IdentityCache.Cache.IsKernelUpdate | src/com/ota/updater/two/utils/Utils.java:308-317 | the same rule on the kernel accessors; the ROM fields are neither read nor written |

## Left out

- CaseFold.EqualsIgnoreCase: case mapping covers the ASCII letters only. `Character.toUpperCase` and `toLowerCase` in Java also map non-ASCII letters, and those mappings are not modelled. The equivalence with equal lower-cased strings (`CaseFold.CharEqualsIgnoreCaseIffSameLower`, `CaseFold.EqualsIgnoreCaseIffSameLowered`, and the `Lowered` form of `UpdateCheck.IsUpdate`'s contract) holds only under that ASCII restriction. In Java, 'ı' (U+0131) and 'i' both upper-case to 'I', so `equalsIgnoreCase` calls them equal, yet their lower cases differ.
- `md5(String)` and `md5(File)`: `MessageDigest` is a foreign library and the file read is streaming I/O. Only their final step, `byteArrToStr`, is modelled.
- Shell execution (`ShellCommand`), `File.exists`, the `org.json` parser and `SimpleDateFormat` are inputs in `Device.Env`. `ShellCommand` is not part of this model, so whether its output is trimmed is not modelled. `parseDate` and `formatDate` are not modelled beyond that; the lenient parser and its 1-24 hour field rule out any round-trip claim.
- The two SD-card property names come from `Config`, which is not part of this model. They are fields of `Device.Env`.
- `RomInfo` and `KernelInfo` are not part of this model. The comparator reads only their `version` and `date`, which is all `UpdateCheck.BuildInfo` holds.
- `isRomUpdate` and `isKernelUpdate` call each accessor a second time. The methods make that second call. The spec function `UpdateCheck.CheckUpdate` calls each accessor once, because the second call is always a cache hit (`OtaProp.CachedValuesAreStable`). The `NullPointerException` that `Date.after(null)` would throw cannot happen.
- Toasts, notifications, `marketAvailable` and `dataAvailable`: UI and Android system services.
- `FetchFile`: it only queues an Android `DownloadManager` request from a background task.
- Concurrency: unsynchronised access to the static fields. Every access is modelled as sequential.
- Logging of JSON errors.
