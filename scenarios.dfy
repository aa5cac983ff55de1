/** Runs of the mod's entry points and hooks, as Windhawk and Explorer would
    drive them, with what each run leaves in the registry and in the mod. */
module Scenarios {
  import opened Text
  import opened Win32Registry
  import opened LeftyTaskbar

  /** Loaded with forcing on and then turned off: the registry ends with the
      alignment it had before the mod was loaded. */
  method EnableThenDisableRestores(m: Mod, v: DWord, advapiFound: bool)
    requires !m.hooksInstalled && !m.originalSaved && !m.reg.readOnly
    requires m.StoredAlignment(m.reg.keys) == Found(DwordValue(v))
    modifies m, m.reg`keys, m.reg`handles, m.reg`broadcasts
    ensures m.originalSaved && m.originalValue == v
    ensures m.StoredAlignment(m.reg.keys) == Found(DwordValue(v))
  {
    CaptureRecordsStored(v);
    var ok := m.ModInit(1, advapiFound);
    m.WrittenStores(old(m.reg.keys), false, LEFT);
    assert m.StoredAlignment(m.reg.keys) == Found(DwordValue(LEFT));
    ghost var k := m.reg.keys;
    m.ModSettingsChanged(0);
    m.WrittenStores(k, false, v);
  }

  /** Loaded with forcing off and then unloaded: a 4-byte `REG_DWORD` is read,
      written back and restored byte for byte. */
  method LoadOffThenUnloadKeepsValue(m: Mod, d: Bytes)
    requires !m.hooksInstalled && !m.originalSaved && !m.reg.readOnly && |d| == 4
    requires m.StoredAlignment(m.reg.keys) == Found(StoredValue(REG_DWORD, d))
    modifies m, m.reg`keys, m.reg`handles, m.reg`broadcasts
    ensures m.StoredAlignment(m.reg.keys) == Found(StoredValue(REG_DWORD, d))
  {
    EncodeDecode(d);
    CaptureRecordsStored(DecodeLE32(d));
    var ok := m.ModInit(0, true);
    m.WrittenStores(old(m.reg.keys), false, DecodeLE32(d));
    ghost var k := m.reg.keys;
    m.ModUninit();
    m.WrittenStores(k, false, DecodeLE32(d));
  }

  /** Loaded with forcing off while `TaskbarAl` is missing: nothing is
      saved, yet the default 1 (centre) is written. */
  method LoadOffWithoutValueWritesCenter(m: Mod)
    requires !m.hooksInstalled && !m.originalSaved && m.originalValue == CENTER && !m.reg.readOnly
    requires m.StoredAlignment(m.reg.keys).Missing?
    modifies m, m.reg`keys, m.reg`handles, m.reg`broadcasts
    ensures !m.originalSaved
    ensures m.StoredAlignment(m.reg.keys) == Found(DwordValue(CENTER))
  {
    var ok := m.ModInit(0, true);
    m.WrittenStores(old(m.reg.keys), false, CENTER);
  }

  /** Loaded while `TaskbarAl` is missing, so nothing is saved and 1 is
      written; when forcing is turned on later the capture goes through the
      installed hooks and records left, so turning forcing off again writes
      left, not the value that was there. */
  method LateCaptureRecordsLeft(m: Mod, d: Bytes)
    requires m.hooksInstalled && !m.originalSaved && !m.reg.readOnly && |d| == 4
    requires m.StoredAlignment(m.reg.keys) == Found(StoredValue(REG_DWORD, d))
    modifies m`forceLeft, m`originalValue, m`originalSaved, m`advancedKeys
    modifies m.reg`keys, m.reg`handles, m.reg`broadcasts
    ensures m.originalSaved && m.originalValue == LEFT
    ensures m.StoredAlignment(m.reg.keys) == Found(DwordValue(LEFT))
  {
    CaptureThroughOverrideRecordsLeft(d);
    m.ModSettingsChanged(1);
    ghost var k := m.reg.keys;
    m.ModSettingsChanged(0);
    m.WrittenStores(k, false, LEFT);
  }

  /** A handle to the Advanced key opened while forcing is on is tracked.
      Forcing is turned off, and then the handle is closed: with forcing off
      the close hook keeps it tracked. The next open, of an unrelated key and
      still with forcing off, reuses its number, which stays tracked. */
  method CloseWhileOffLeavesStaleEntry(m: Mod, sub: string)
    requires m.hooksInstalled && m.forceLeft && m.reg.handles == map[]
    requires m.AdvancedPath() in m.reg.keys
    requires Child(KeyPath(CurrentUser, []), Some(sub)) in m.reg.keys && !IEquals(sub, m.advancedSubKey)
    modifies m`forceLeft, m`originalValue, m`originalSaved, m`advancedKeys
    modifies m.reg`keys, m.reg`handles, m.reg`broadcasts
    ensures !m.forceLeft && Handle(1) in m.advancedKeys
    ensures m.reg.handles == map[1 := Child(KeyPath(CurrentUser, []), Some(sub))]
  {
    IEqualsIffSameFold(m.advancedSubKey, m.advancedSubKey);
    assert m.reg.NextHandle() == 1;
    var status, h := m.RegOpenKeyExHook(HKEY_CURRENT_USER, Some(m.advancedSubKey), Some(NULL_HKEY));
    assert h == Some(Handle(1));
    m.ModSettingsChanged(0);
    var closed := m.RegCloseKeyHook(h.value);
    assert m.reg.handles == map[];
    assert m.reg.NextHandle() == 1;
    var status2, h2 := m.RegOpenKeyExHook(HKEY_CURRENT_USER, Some(sub), Some(NULL_HKEY));
  }

  /** After `CloseWhileOffLeavesStaleEntry`, forcing is turned on again. The
      mod's own open and create take number 2, so the stale entry for number
      1 survives, and reads of `TaskbarAl` in the unrelated key through that
      handle are overridden. */
  method StaleHandleIsReused(m: Mod, sub: string)
    requires m.hooksInstalled && m.forceLeft && m.reg.handles == map[]
    requires m.AdvancedPath() in m.reg.keys
    requires Child(KeyPath(CurrentUser, []), Some(sub)) in m.reg.keys && !IEquals(sub, m.advancedSubKey)
    modifies m`forceLeft, m`originalValue, m`originalSaved, m`advancedKeys
    modifies m.reg`keys, m.reg`handles, m.reg`broadcasts
    ensures m.forceLeft
    ensures var h := Handle(1);
            && h in m.advancedKeys
            && m.reg.Resolve(h) == Some(Child(KeyPath(CurrentUser, []), Some(sub)))
            && m.reg.Resolve(h) != Some(m.AdvancedPath())
            && m.QueryOverrides(ERROR_SUCCESS, h, Some(TASKBAR_AL))
  {
    IEqualsIffSameFold(TASKBAR_AL, TASKBAR_AL);
    m.PathEqualsAdvancedHKCUIffOpensAdvanced(HKEY_CURRENT_USER, Some(sub));
    CloseWhileOffLeavesStaleEntry(m, sub);
    assert m.reg.handles.Keys == {1};
    assert {1} - {1} == {};
    assert LowestFree({1}, 1) == LowestFree({}, 2) == 2;
    assert m.reg.NextHandle() == 2;
    m.ModSettingsChanged(1);
  }

  /** Once a value is saved, by whichever entry point, every later cycle of
      turning forcing on and off again leaves that value stored. */
  method CycleRestores(m: Mod, v: DWord)
    requires m.originalSaved && m.originalValue == v && !m.reg.readOnly
    modifies m`forceLeft, m`originalValue, m`originalSaved, m`advancedKeys
    modifies m.reg`keys, m.reg`handles, m.reg`broadcasts
    ensures m.originalSaved && m.originalValue == v
    ensures m.StoredAlignment(m.reg.keys) == Found(DwordValue(v))
  {
    m.ModSettingsChanged(1);
    ghost var k := m.reg.keys;
    m.ModSettingsChanged(0);
    m.WrittenStores(k, false, v);
  }
}
