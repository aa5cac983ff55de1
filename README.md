# Lefty Taskbar Toggle, modelled in Dafny

The Windhawk mod `lefty-taskbar-toggle` runs inside `explorer.exe`. It holds
the Windows 11 taskbar on the left by two means:

- it writes 0 into the `TaskbarAl` value of
  `HKEY_CURRENT_USER\Software\Microsoft\Windows\CurrentVersion\Explorer\Advanced`;
- it hooks `RegOpenKeyExW`, `RegQueryValueExW`, `RegGetValueW` and
  `RegCloseKey`. While the *Force left alignment* setting is on, two kinds
  of successful read of `TaskbarAl` report 0, provided the caller passes a
  type pointer, a data buffer and a size cell, and the stored value is a
  `REG_DWORD` of at least 4 bytes (the override's own test, :135):
  - reads through a handle that the open hook tracked, that is, a handle
    opened as exactly `HKEY_CURRENT_USER` plus the Advanced path while
    forcing was on (or a later handle that reused its number, see below);
  - `RegGetValueW` calls on `HKEY_CURRENT_USER` naming that sub-key.

  Other reads still see the stored value. These include reads through a
  handle opened relative to another key, reads through a handle opened
  before forcing was on, `RegGetValueW` on a tracked handle with no
  sub-key, and reads that pass no type pointer, no data buffer or no size
  cell.

The mod's own readme says it remembers the original `TaskbarAl` the first
time it is enabled, and restores that saved alignment when it is disabled or
uninstalled (mods/lefty-taskbar-toggle.wh.cpp:17, :32-33). The value it
records is the one its first successful capture reads. For a stored 4-byte
`REG_DWORD` that is the stored value when the capture runs before the hooks
are installed, but not always otherwise (see below). A `REG_DWORD` shorter
than 4 bytes is recorded laid over the pre-set 1 (`CaptureShortDword`).

The model has four modules:

- `Text` (text.dfy): `_wcsicmp` equality as ASCII case folding.
- `Win32Registry` (registry.dfy): the registry calls the mod makes, as they
  behave before any hook is installed (the "originals"). The class
  `Registry` holds the keys, the open-handle table, whether writes are
  refused, and a count of `WM_SETTINGCHANGE` broadcasts. The opens, reads and
  closes are each described by a pure function of that state, and the method
  that performs the call promises exactly that outcome. The create, the
  value write and the broadcast are methods whose contracts give the new
  state directly.
- `LeftyTaskbar` (lefty.dfy): the mod itself.
  - The in-place override of a caller's read buffer.
  - The save-once capture of the original value, on values.
  - The class `Mod`, which holds the globals, the four hooks and the
    lifecycle entry points.
  - Every hook promises the original's own status and out-parameters, plus
    its one effect: tracking a handle, untracking it, or rewriting the buffer.
- `Scenarios` (scenarios.dfy): runs of the entry points and hooks in the
  order the host and Explorer drive them.

Buffers are `array<Byte>`, which the hooks rewrite in place. Nullable pointer
arguments are `Option` values, or `array?` for data buffers. `HKEY`s are
predefined roots or handle numbers. Handle numbers come from the lowest free
number, so a closed handle's number is handed out again.

### Quirks of the code

The model reproduces both of these as written.

- **A handle closed while forcing is off stays tracked**
  (mods/lefty-taskbar-toggle.wh.cpp:183-188). The close hook untracks a
  handle only when `g_settings.forceLeft` is on (:184). The operating system
  reuses the numbers of closed handles. So a handle to the Advanced key,
  tracked while forcing was on and closed while it was off, stays in the
  set. Its number can then be handed to an unrelated key, and that key's
  `TaskbarAl` reads are overridden. `RegCloseKeyHook` states the rule.
  `Scenarios.CloseWhileOffLeavesStaleEntry` and
  `Scenarios.StaleHandleIsReused` drive it through the host's own entry
  points.
- **A late capture reads through the hooks**
  (mods/lefty-taskbar-toggle.wh.cpp:101-105). `SaveOriginalIfNeeded` calls
  `RegOpenKeyExW` and `RegQueryValueExW` by name. Once the hooks are
  installed (:215-218), a capture made from `Wh_ModSettingsChanged` (:235)
  goes through the open hook and the query hook. With forcing on, the open
  hook tracks the handle and the query hook rewrites the value, so a stored
  4-byte `REG_DWORD` is recorded as 0. Turning forcing off then "restores"
  0, not the alignment the readme promises to save. `SaveOriginalIfNeeded`
  is stated with `overriding = hooksInstalled && forceLeft`, and
  `Scenarios.LateCaptureRecordsLeft` shows the consequence.

## Model

| member | source | states |
|---|---|---|
| Text.IEqualsIffSameFold | mods/lefty-taskbar-toggle.wh.cpp:74-76 | two names compare equal exactly when their case-folded forms are the same string, in both directions |
| Text.IEqualsIsEquivalence | mods/lefty-taskbar-toggle.wh.cpp:74-76 | the case-insensitive comparison is reflexive, symmetric and transitive |
| Win32Registry.DecodeEncode | mods/lefty-taskbar-toggle.wh.cpp:127 | the four little-endian bytes written for a `DWORD` read back as the same `DWORD` |
| Win32Registry.EncodeDecode | mods/lefty-taskbar-toggle.wh.cpp:105-106 | any four bytes read as a `DWORD` and written again give back the same four bytes |
| Win32Registry.ReadInto | mods/lefty-taskbar-toggle.wh.cpp:105 | a read succeeds exactly when the value exists and fits the buffer (or no buffer is given); on success the type and size cells report the stored type and length, and the data fill the front of the buffer with the rest untouched; on failure the buffer is untouched; the buffer length never changes |
| Win32Registry.Registry.OpenCall | mods/lefty-taskbar-toggle.wh.cpp:147 | the original open succeeds exactly when `phkResult` is given, the root resolves and the sub-key exists; on success it hands out the lowest free handle number, bound to that key, and the handle table changes in no other way |
| Win32Registry.Registry.Open | mods/lefty-taskbar-toggle.wh.cpp:147 | performs the original open: its status, `*phkResult` and the new handle table are those `OpenCall` describes |
| Win32Registry.Registry.Query | mods/lefty-taskbar-toggle.wh.cpp:156 | performs the original `RegQueryValueExW`: status, type cell, size cell and buffer as `ReadInto` describes for the value the handle's key holds |
| Win32Registry.Registry.GetValue | mods/lefty-taskbar-toggle.wh.cpp:170 | performs the original `RegGetValueW`: as `Query`, for the value of the sub-key named relative to the handle |
| Win32Registry.Registry.CloseCall | mods/lefty-taskbar-toggle.wh.cpp:187 | the original close releases exactly the handle number it is given, and nothing else |
| Win32Registry.Registry.Close | mods/lefty-taskbar-toggle.wh.cpp:187 | performs the original close: its status and the new handle table are those `CloseCall` describes |
| Win32Registry.Registry.Create | mods/lefty-taskbar-toggle.wh.cpp:126 | `RegCreateKeyExW` succeeds exactly when writes are allowed and the root resolves; it creates the key if missing and hands out the lowest free handle; on failure nothing changes |
| Win32Registry.Registry.SetValue | mods/lefty-taskbar-toggle.wh.cpp:127 | `RegSetValueExW` succeeds exactly when writes are allowed and the handle resolves, and then stores the value under its folded name in that key |
| Win32Registry.Registry.BroadcastTraySettings | mods/lefty-taskbar-toggle.wh.cpp:114-122 | each refresh sends exactly one `WM_SETTINGCHANGE` "TraySettings" broadcast |
| LeftyTaskbar.TaskbarAlNameSelectsValue | mods/lefty-taskbar-toggle.wh.cpp:158-161 | a value name the hooks accept as `TaskbarAl` denotes the same registry value as `TaskbarAl`, in any key |
| LeftyTaskbar.OverriddenReadsLeft | mods/lefty-taskbar-toggle.wh.cpp:134-141 | the override keeps the buffer's length and every byte from the fifth on; when its test holds (type cell `REG_DWORD`, buffer given, size cell at least 4) the first `DWORD` reads 0; otherwise the buffer is unchanged; applying it twice is applying it once |
| LeftyTaskbar.OverrideToLeftIfNeeded | mods/lefty-taskbar-toggle.wh.cpp:134-141 | rewrites the caller's buffer in place to exactly `Overridden` of its old contents and never writes past the first 4 bytes; the type and size are read, never written |
| LeftyTaskbar.OverrideHidesStoredDword | mods/lefty-taskbar-toggle.wh.cpp:134-141 | a 4-byte `REG_DWORD` read into a large enough buffer succeeds with type `REG_DWORD` and size 4, and after the override reads as 0 whatever was stored |
| LeftyTaskbar.CaptureSucceedsIffDword | mods/lefty-taskbar-toggle.wh.cpp:105-107 | a capture records something exactly when `TaskbarAl` exists as a `REG_DWORD` of at most 4 bytes |
| LeftyTaskbar.CaptureRecordsStored | mods/lefty-taskbar-toggle.wh.cpp:102-107 | read without an override, a stored `REG_DWORD v` is recorded as `v` |
| LeftyTaskbar.CaptureShortDword | mods/lefty-taskbar-toggle.wh.cpp:102-106 | a `REG_DWORD` shorter than 4 bytes lands over the front of the pre-set 1, and the mixed bytes are recorded |
| LeftyTaskbar.CaptureThroughOverrideRecordsLeft | mods/lefty-taskbar-toggle.wh.cpp:101-107 | read through an active override, any 4-byte `REG_DWORD` is recorded as 0 |
| LeftyTaskbar.SavedIsFinal | mods/lefty-taskbar-toggle.wh.cpp:97-98 | once the original is saved, no sequence of later capture attempts changes it |
| LeftyTaskbar.FirstCaptureWins | mods/lefty-taskbar-toggle.wh.cpp:97-107 | over any sequence of attempts, the first successful capture decides the remembered value for good |
| LeftyTaskbar.FailedCapturesKeepDefault | mods/lefty-taskbar-toggle.wh.cpp:58-59 | while every attempt fails, nothing is saved and the remembered value keeps its prior value, initially 1 |
| LeftyTaskbar.Mod.constructor | mods/lefty-taskbar-toggle.wh.cpp:54-61 | at load, forcing is off, the remembered value is 1 and unsaved, no handle is tracked, no hook is installed, and the sub-key is the Advanced path |
| LeftyTaskbar.Mod.WrittenStores | mods/lefty-taskbar-toggle.wh.cpp:124-127 | after a write `TaskbarAl` holds `REG_DWORD v`, unless writes are refused; no other value of the Advanced key and no value of any other key changes |
| LeftyTaskbar.Mod.PathEqualsAdvancedHKCUIffOpensAdvanced | mods/lefty-taskbar-toggle.wh.cpp:78-80 | the path test holds exactly when the open is of a sub-key directly under `HKEY_CURRENT_USER` that names the Advanced key, in any letter case, in both directions |
| LeftyTaskbar.Mod.TrackAdvancedKey | mods/lefty-taskbar-toggle.wh.cpp:82-85 | the tracked set gains the handle and nothing else |
| LeftyTaskbar.Mod.UntrackKey | mods/lefty-taskbar-toggle.wh.cpp:87-90 | the tracked set loses the handle and nothing else |
| LeftyTaskbar.Mod.IsAdvancedKey | mods/lefty-taskbar-toggle.wh.cpp:92-95 | the answer is true exactly when the handle is tracked |
| LeftyTaskbar.Mod.RegOpenKeyExHook | mods/lefty-taskbar-toggle.wh.cpp:145-152 | returns the original open's status and `*phkResult` and leaves its handle table; adds the new handle to the tracked set exactly when forcing is on, the open succeeded, `phkResult` was given and the path names the Advanced key under `HKEY_CURRENT_USER` |
| LeftyTaskbar.Mod.RegQueryValueExHook | mods/lefty-taskbar-toggle.wh.cpp:154-166 | returns the original read's status, type and size; the buffer is the original's result, overridden exactly when forcing is on, the read succeeded, the handle is tracked and the name is `TaskbarAl` in any letter case |
| LeftyTaskbar.Mod.RegGetValueHook | mods/lefty-taskbar-toggle.wh.cpp:168-181 | as the query hook, but the override test is on the root `HKEY_CURRENT_USER`, the Advanced sub-key and the `TaskbarAl` name only, and ignores the tracked set |
| LeftyTaskbar.Mod.RegCloseKeyHook | mods/lefty-taskbar-toggle.wh.cpp:183-188 | returns the original close's status and handle table; untracks the handle only while forcing is on, so a tracked handle closed while forcing is off stays tracked |
| LeftyTaskbar.Mod.CallRegOpenKeyEx | mods/lefty-taskbar-toggle.wh.cpp:101 | the mod's own open by name: the original's outcome, with the open hook's tracking once the hooks are installed |
| LeftyTaskbar.Mod.CallRegQueryValueEx | mods/lefty-taskbar-toggle.wh.cpp:105 | the mod's own read by name: the original's outcome, with the query hook's override once the hooks are installed |
| LeftyTaskbar.Mod.CallRegCloseKey | mods/lefty-taskbar-toggle.wh.cpp:110 | the mod's own close by name: the original's outcome, with the close hook's untracking once the hooks are installed |
| LeftyTaskbar.Mod.QueryAlignment | mods/lefty-taskbar-toggle.wh.cpp:102-105 | reading `TaskbarAl` from an open handle on a key yields exactly what `Capture` says for that key's value; it is overridden when the hooks are installed, forcing is on and the handle is tracked |
| LeftyTaskbar.Mod.SaveOriginalIfNeeded | mods/lefty-taskbar-toggle.wh.cpp:97-112 | once saved, nothing changes; otherwise the memory becomes `CaptureOnce` of the stored `TaskbarAl`, read through the override when the hooks are in place and forcing is on; every handle it opens is closed again; the tracked set is unchanged except for that handle, untracked in the hooked forcing case |
| LeftyTaskbar.Mod.WriteTaskbarAlignment | mods/lefty-taskbar-toggle.wh.cpp:124-132 | the registry becomes `Written(val)`; the handle it creates is closed again; exactly one broadcast follows a successful create and none a refused one |
| LeftyTaskbar.Mod.LoadSettings | mods/lefty-taskbar-toggle.wh.cpp:192-194 | forcing is on exactly when the integer setting is non-zero |
| LeftyTaskbar.Mod.ModInit | mods/lefty-taskbar-toggle.wh.cpp:196-222 | always succeeds; captures without any override; writes 0 when forcing and otherwise the remembered value, saved or not; the hooks are installed exactly when advapi32 is found; every handle it opens is closed again and the tracked set is unchanged; exactly one broadcast follows unless writes are refused |
| LeftyTaskbar.Mod.ModUninit | mods/lefty-taskbar-toggle.wh.cpp:224-229 | writes the remembered value back exactly when one was saved, and otherwise leaves the registry alone; one broadcast exactly when it writes and writes are allowed; the handle it creates is closed again, and it is untracked only when the hooks are installed and forcing is on |
| LeftyTaskbar.Mod.ModSettingsChanged | mods/lefty-taskbar-toggle.wh.cpp:231-242 | turned on: captures (through the hooks once installed) and writes 0; turned off: writes the remembered value only if saved, and changes no tracked handle; turned on with the hooks installed, the handle number its own open or create takes is untracked exactly when one of them succeeds; one broadcast per successful write; no handle stays open |
| Scenarios.EnableThenDisableRestores | mods/lefty-taskbar-toggle.wh.cpp:196-241 | loaded with forcing on and then turned off, the registry again holds the `REG_DWORD v` it held before the mod was loaded |
| Scenarios.LoadOffThenUnloadKeepsValue | mods/lefty-taskbar-toggle.wh.cpp:196-229 | loaded with forcing off and then unloaded, a 4-byte `REG_DWORD` is left byte for byte as it was |
| Scenarios.LoadOffWithoutValueWritesCenter | mods/lefty-taskbar-toggle.wh.cpp:200-204 | loaded with forcing off while `TaskbarAl` is missing, nothing is saved, yet `REG_DWORD 1` is written |
| Scenarios.LateCaptureRecordsLeft | mods/lefty-taskbar-toggle.wh.cpp:231-241 | a first capture made with the hooks installed records 0, so turning forcing on and off again leaves 0 stored |
| Scenarios.CloseWhileOffLeavesStaleEntry | mods/lefty-taskbar-toggle.wh.cpp:183-188 | a handle to the Advanced key tracked while forcing is on, with forcing then turned off by `Wh_ModSettingsChanged` and the handle closed, stays tracked; the next open, of an unrelated key (one whose name does not match the Advanced path), gets its number |
| Scenarios.StaleHandleIsReused | mods/lefty-taskbar-toggle.wh.cpp:183-188 | after that, turning forcing on again by `Wh_ModSettingsChanged` leaves the stale entry tracked: the handle now denotes a key other than the Advanced key, and it meets the query hook's test, so its `TaskbarAl` reads that pass a type pointer, a buffer and a size cell, of a `REG_DWORD` of at least 4 bytes, report 0 |
| Scenarios.CycleRestores | mods/lefty-taskbar-toggle.wh.cpp:231-241 | once a value `v` is saved, by whichever entry point, turning forcing on and then off again leaves `REG_DWORD v` stored and `v` remembered |

## Left out

- `std::mutex` and `lock_guard` (:62, :83-94): they serve only concurrency, and the model runs every call in sequence.
- `Wh_Log`: logging has no effect on the state.
- `Wh_GetIntSetting`: the host's setting store is not modelled; its value is the integer parameter of `LoadSettings`, `ModInit` and `ModSettingsChanged`.
- `GetModuleHandleW`, `LoadLibraryW` and `GetProcAddress` (:206-213): whether advapi32 is found is the boolean parameter `advapiFound` of `ModInit`.
- `Wh_SetFunctionHook` and the trampolines (:215-218): modelled only as the flag `hooksInstalled`. When it is set, the mod's own calls by name reach the hooks. A system where only some of the four hooks take is not modelled.
- `SendMessageTimeoutW` (:114-122): only counted. The listeners' reaction, `SMTO_ABORTIFHUNG` and the 200 ms timeout are not modelled.
- Access masks, `ulOptions`, `lpReserved`, `dwFlags`, security attributes and the disposition argument of the registry calls: the model has no permissions beyond a registry-wide read-only flag.
- Win32Registry.Registry.GetValue: does not model `RegGetValueW`'s `dwFlags` type filter or its string termination rules, because the mod passes them through untouched.
- Win32Registry.Registry.Create: does not create the intermediate keys of a missing path, because the mod only looks at the Advanced key itself.
- Win32Registry.Registry.OpenCall: hands out the lowest free handle number. The operating system's own allocation policy is unknown; this choice keeps the reuse of closed numbers.
- Text.IEqualsIffSameFold: `_wcsicmp` is modelled as ASCII-only folding, as in the "C" locale; other locales and Unicode case folding are not modelled.
- The hooks, `Query` and `GetValue` require that the caller's size cell claims no more room than its data buffer has (`Describes`); this is the Win32 API's own contract with its callers, and a caller that overstates its buffer (undefined behaviour in C) is not modelled.
- Strings are the characters before the terminating NUL. A NUL embedded in a name is not modelled.
- The metadata, readme and settings comment blocks (:1-44) are not part of this model.
