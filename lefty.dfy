/** The Lefty Taskbar Toggle mod: while `forceLeft` is on it writes 0 (left)
    to the `TaskbarAl` value of Explorer's Advanced key, and the hooks report
    0 for two kinds of successful read of that value: reads through a handle
    the open hook tracked, and `RegGetValueW` calls naming the Advanced key
    under `HKEY_CURRENT_USER`; in both, only when the caller passes a type
    pointer, a data buffer and a size cell and the value is a `REG_DWORD` of
    at least 4 bytes. When turned off or unloaded it writes back the value
    its first successful capture recorded. */
module LeftyTaskbar {
  import opened Text
  import opened Win32Registry

  /** `kAdvancedSubKey`, the path of Explorer's Advanced key under
      `HKEY_CURRENT_USER`. */
  const ADVANCED_SUBKEY: string := "Software\\Microsoft\\Windows\\CurrentVersion\\Explorer\\Advanced"
  /** `kTaskbarAlValue`, the value holding the alignment. */
  const TASKBAR_AL: string := "TaskbarAl"

  /** `TaskbarAl` values: 0 is left, 1 is centre. */
  const LEFT: DWord := 0
  const CENTER: DWord := 1

  /** A value name the hooks treat as `TaskbarAl` names the same registry
      value, in any key. */
  lemma TaskbarAlNameSelectsValue(keys: Tree, p: KeyPath, name: string)
    requires IEquals(name, TASKBAR_AL)
    ensures ValueIn(keys, p, Some(name)) == ValueIn(keys, p, Some(TASKBAR_AL))
  {
    IEqualsIffSameFold(name, TASKBAR_AL);
  }

  // ---------------------------------------------------------------------
  // The override of a read result

  /** The test `OverrideToLeftIfNeeded` makes: a type cell holding
      `REG_DWORD`, a data buffer, and a size cell of at least 4 bytes. */
  predicate OverrideApplies(lpType: Option<DWord>, hasData: bool, lpcbData: Option<DWord>)
  {
    lpType != None && lpType.value == REG_DWORD && hasData && lpcbData != None && lpcbData.value >= 4
  }

  /** The buffer after the override: when the test holds and the first
      `DWORD` is not already 0, that `DWORD` becomes 0. */
  function Overridden(lpType: Option<DWord>, buf: seq<Byte>, lpcbData: Option<DWord>): (r: seq<Byte>)
    requires Describes(Some(buf), lpcbData)
  {
    if OverrideApplies(lpType, true, lpcbData) && DecodeLE32(buf) != LEFT then LE32(LEFT) + buf[4..] else buf
  }

  /** The override reads as left, touches nothing past the first 4 bytes,
      leaves a buffer it does not apply to alone, and is idempotent. */
  lemma OverriddenReadsLeft(lpType: Option<DWord>, buf: seq<Byte>, lpcbData: Option<DWord>)
    requires Describes(Some(buf), lpcbData)
    ensures var r := Overridden(lpType, buf, lpcbData);
            && |r| == |buf|
            && (|r| >= 4 ==> r[4..] == buf[4..])
            && (OverrideApplies(lpType, true, lpcbData) ==> DecodeLE32(r) == LEFT)
            && (!OverrideApplies(lpType, true, lpcbData) ==> r == buf)
            && Overridden(lpType, r, lpcbData) == r
  {
    var r := Overridden(lpType, buf, lpcbData);
    if OverrideApplies(lpType, true, lpcbData) && DecodeLE32(buf) != LEFT {
      assert r[..4] == LE32(LEFT);
    }
  }

  /** `OverrideToLeftIfNeeded`: rewrites the caller's buffer in place. */
  method OverrideToLeftIfNeeded(lpType: Option<DWord>, lpData: array?<Byte>, lpcbData: Option<DWord>)
    requires Describes(Buf(lpData), lpcbData)
    modifies lpData
    ensures lpData != null ==> lpData[..] == Overridden(lpType, old(lpData[..]), lpcbData)
    ensures lpData != null ==> forall i :: 4 <= i < lpData.Length ==> lpData[i] == old(lpData[i])
  {
    if lpType != None && lpType.value == REG_DWORD && lpData != null && lpcbData != None && lpcbData.value >= 4 {
      if DecodeLE32(lpData[..]) != LEFT {
        lpData[0], lpData[1], lpData[2], lpData[3] := 0, 0, 0, 0;
        assert lpData[..] == LE32(LEFT) + old(lpData[..])[4..];
      }
    }
  }

  /** Reading the alignment through an active override: whatever `REG_DWORD`
      is stored, the caller sees 0, with the type and size the original
      reported. */
  lemma OverrideHidesStoredDword(v: StoredValue, lpType: Option<DWord>, buf: seq<Byte>, lpcbData: Option<DWord>)
    requires v.kind == REG_DWORD && |v.data| == 4
    requires lpType != None && lpcbData != None && 4 <= lpcbData.value <= |buf|
    ensures var o := ReadInto(Found(v), lpType, Some(buf), lpcbData);
            && o.status == ERROR_SUCCESS
            && o.kind == Some(REG_DWORD) && o.size == Some(4)
            && DecodeLE32(Overridden(o.kind, o.data.value, o.size)) == LEFT
  {
    var o := ReadInto(Found(v), lpType, Some(buf), lpcbData);
    OverriddenReadsLeft(o.kind, o.data.value, o.size);
  }

  // ---------------------------------------------------------------------
  // The original value

  /** `g_originalValue` together with `g_originalSaved`. */
  datatype Memory = Memory(saved: bool, value: DWord)

  /** What one capture attempt records: it opens the Advanced key, reads
      `TaskbarAl` into a 4-byte `val` pre-set to 1 with the type cell pre-set
      to `REG_DWORD`, and keeps `val` when the read succeeds with type
      `REG_DWORD`. `overriding` says the read reaches an active override. */
  function Capture(found: Lookup, overriding: bool): (captured: Option<DWord>)
  {
    var o := ReadInto(found, Some(REG_DWORD), Some(LE32(CENTER)), Some(4));
    if o.status == ERROR_SUCCESS && o.kind == Some(REG_DWORD) then
      Some(DecodeLE32(if overriding then Overridden(o.kind, o.data.value, o.size) else o.data.value))
    else None
  }

  /** `SaveOriginalIfNeeded` on the memory: nothing once saved, else the
      value of a successful capture. */
  function CaptureOnce(m: Memory, found: Lookup, overriding: bool): (next: Memory)
  {
    if m.saved then m
    else match Capture(found, overriding)
      case None => m
      case Some(v) => Memory(true, v)
  }

  /** The capture records the buffer of the read it makes. */
  lemma CaptureIsRead(found: Lookup, overriding: bool, o: ReadOut, bytes: seq<Byte>)
    requires o == ReadInto(found, Some(REG_DWORD), Some(LE32(CENTER)), Some(4))
    requires o.data != None && |bytes| == 4
    requires bytes == if overriding && o.status == ERROR_SUCCESS then Overridden(o.kind, o.data.value, o.size) else o.data.value
    ensures Capture(found, overriding) == if o.status == ERROR_SUCCESS && o.kind == Some(REG_DWORD) then Some(DecodeLE32(bytes)) else None
  {
  }

  /** A capture succeeds exactly when `TaskbarAl` is a `REG_DWORD` of at
      most 4 bytes. */
  lemma CaptureSucceedsIffDword(found: Lookup, overriding: bool)
    ensures Capture(found, overriding) != None <==>
              found.Found? && found.value.kind == REG_DWORD && |found.value.data| <= 4
  {
  }

  /** Read directly, a stored `REG_DWORD v` is recorded as `v`. */
  lemma CaptureRecordsStored(v: DWord)
    ensures Capture(Found(DwordValue(v)), false) == Some(v)
  {
    DecodeEncode(v);
    assert LE32(v) + LE32(CENTER)[4..] == LE32(v);
  }

  /** Data shorter than 4 bytes land over the pre-set 1. */
  lemma CaptureShortDword(d: Bytes, overriding: bool)
    requires |d| < 4
    ensures Capture(Found(StoredValue(REG_DWORD, d)), overriding) == Some(DecodeLE32(d + LE32(CENTER)[|d|..]))
  {
  }

  /** Read through an active override, a 4-byte `REG_DWORD` is recorded as
      left, whatever it holds. */
  lemma CaptureThroughOverrideRecordsLeft(d: Bytes)
    requires |d| == 4
    ensures Capture(Found(StoredValue(REG_DWORD, d)), true) == Some(LEFT)
  {
    var o := ReadInto(Found(StoredValue(REG_DWORD, d)), Some(REG_DWORD), Some(LE32(CENTER)), Some(4));
    OverriddenReadsLeft(o.kind, o.data.value, o.size);
  }

  /** The memory after a sequence of capture attempts. */
  function CaptureAll(m: Memory, attempts: seq<(Lookup, bool)>): (last: Memory)
    decreases |attempts|
  {
    if attempts == [] then m else CaptureAll(CaptureOnce(m, attempts[0].0, attempts[0].1), attempts[1..])
  }

  /** Once saved, no later capture changes the memory. */
  lemma {:induction false} SavedIsFinal(m: Memory, attempts: seq<(Lookup, bool)>)
    requires m.saved
    ensures CaptureAll(m, attempts) == m
  {
    if attempts != [] {
      SavedIsFinal(CaptureOnce(m, attempts[0].0, attempts[0].1), attempts[1..]);
    }
  }

  /** The first successful capture decides the memory for good: the original
      is recorded at most once. */
  lemma {:induction false} FirstCaptureWins(m: Memory, attempts: seq<(Lookup, bool)>, i: nat, v: DWord)
    requires !m.saved && i < |attempts|
    requires forall j :: 0 <= j < i ==> Capture(attempts[j].0, attempts[j].1) == None
    requires Capture(attempts[i].0, attempts[i].1) == Some(v)
    ensures CaptureAll(m, attempts) == Memory(true, v)
  {
    var next := CaptureOnce(m, attempts[0].0, attempts[0].1);
    if i == 0 {
      SavedIsFinal(next, attempts[1..]);
    } else {
      assert next == m;
      FirstCaptureWins(next, attempts[1..], i - 1, v);
    }
  }

  /** With no successful capture the memory keeps its value, initially 1. */
  lemma {:induction false} FailedCapturesKeepDefault(m: Memory, attempts: seq<(Lookup, bool)>)
    requires !m.saved
    requires forall j :: 0 <= j < |attempts| ==> Capture(attempts[j].0, attempts[j].1) == None
    ensures CaptureAll(m, attempts) == m
  {
    if attempts != [] {
      FailedCapturesKeepDefault(CaptureOnce(m, attempts[0].0, attempts[0].1), attempts[1..]);
    }
  }

  // ---------------------------------------------------------------------
  // The mod's globals, hooks and lifecycle

  class Mod {
    /** `g_settings.forceLeft`. */
    var forceLeft: bool
    /** `g_originalValue`. */
    var originalValue: DWord
    /** `g_originalSaved`. */
    var originalSaved: bool
    /** `g_advancedKeys`: handles believed to denote the Advanced key. */
    var advancedKeys: set<HKey>
    /** Set once `Wh_ModInit` has hooked the four calls; from then on every
      call to them in the process, the mod's own included, reaches the hook. */
    var hooksInstalled: bool
    /** The system the mod runs in. */
    const reg: Registry

    /** `kAdvancedSubKey`: the constructor sets it to `ADVANCED_SUBKEY`; the
      proofs below hold whatever path it names. */
    const advancedSubKey: string

    /** The key `HKEY_CURRENT_USER\<advancedSubKey>` in the registry. */
    function AdvancedPath(): (p: KeyPath)
    {
      Child(KeyPath(CurrentUser, []), Some(advancedSubKey))
    }

    /** The stored alignment: `TaskbarAl` in the Advanced key. */
    function StoredAlignment(keys: Tree): (found: Lookup)
    {
      ValueIn(keys, AdvancedPath(), Some(TASKBAR_AL))
    }

    /** The registry after the mod writes alignment `v`: unchanged when the
      registry refuses writes, else `TaskbarAl` holds `REG_DWORD v`. */
    function Written(keys: Tree, readOnly: bool, v: DWord): (written: Tree)
    {
      if readOnly then keys else SetIn(keys, AdvancedPath(), TASKBAR_AL, DwordValue(v))
    }

    /** A write sets the stored alignment and no other value, neither of
      the Advanced key nor of any other key. */
    lemma WrittenStores(keys: Tree, readOnly: bool, v: DWord)
      ensures StoredAlignment(Written(keys, readOnly, v)) == if readOnly then StoredAlignment(keys) else Found(DwordValue(v))
      ensures forall q, n :: q != AdvancedPath() ==> ValueIn(Written(keys, readOnly, v), q, n) == ValueIn(keys, q, n)
      ensures forall n :: Fold(n) != Fold(TASKBAR_AL) ==>
                ValueIn(Written(keys, readOnly, v), AdvancedPath(), Some(n)) == ValueIn(keys, AdvancedPath(), Some(n))
    {
    }

    /** `PathEqualsAdvancedHKCU`: the open is of `HKEY_CURRENT_USER` plus the
      Advanced sub-key, compared case-insensitively. */
    predicate PathEqualsAdvancedHKCU(root: HKey, subKey: Option<string>)
    {
      root == HKEY_CURRENT_USER && subKey != None && IEquals(subKey.value, advancedSubKey)
    }

    /** The test holds exactly for the spellings that open the Advanced key
      directly under `HKEY_CURRENT_USER`. */
    lemma PathEqualsAdvancedHKCUIffOpensAdvanced(root: HKey, subKey: Option<string>)
      ensures PathEqualsAdvancedHKCU(root, subKey) <==>
                root == HKEY_CURRENT_USER && subKey != None && Child(KeyPath(CurrentUser, []), subKey) == AdvancedPath()
    {
      if subKey != None {
        IEqualsIffSameFold(subKey.value, advancedSubKey);
        assert |Fold(subKey.value)| == |subKey.value| && |Fold(advancedSubKey)| == |advancedSubKey|;
      }
    }


    /** The globals as the module is loaded. */
    constructor (reg: Registry)
      ensures this.reg == reg && advancedSubKey == ADVANCED_SUBKEY
      ensures !forceLeft && originalValue == CENTER && !originalSaved && advancedKeys == {} && !hooksInstalled
    {
      this.reg := reg;
      advancedSubKey := ADVANCED_SUBKEY;
      forceLeft := false;
      originalValue := CENTER;
      originalSaved := false;
      advancedKeys := {};
      hooksInstalled := false;
    }

    /** The original-value memory. */
    function Remembered(): (m: Memory)
      reads this
    {
      Memory(originalSaved, originalValue)
    }

    method TrackAdvancedKey(hKey: HKey)
      modifies this`advancedKeys
      ensures advancedKeys == old(advancedKeys) + {hKey}
    {
      advancedKeys := advancedKeys + {hKey};
    }

    method UntrackKey(hKey: HKey)
      modifies this`advancedKeys
      ensures advancedKeys == old(advancedKeys) - {hKey}
    {
      advancedKeys := advancedKeys - {hKey};
    }

    method IsAdvancedKey(hKey: HKey) returns (tracked: bool)
      ensures tracked <==> hKey in advancedKeys
    {
      tracked := hKey in advancedKeys;
    }

    // -------------------------------------------------------------------
    // Hooks

    /** Hook of `RegOpenKeyExW`: the original's outcome, and the new handle
      tracked when forcing is on, the open succeeded, `phkResult` is given
      and the path is the Advanced key under `HKEY_CURRENT_USER`. */
    method RegOpenKeyExHook(hKey: HKey, subKey: Option<string>, phkResult: Option<HKey>)
      returns (status: Status, phkOut: Option<HKey>)
      modifies this`advancedKeys, reg`handles
      ensures var o := old(reg.OpenCall(hKey, subKey, phkResult));
              status == o.status && phkOut == o.phk && reg.handles == o.handles
      ensures advancedKeys ==
                if forceLeft && status == ERROR_SUCCESS && phkResult != None && PathEqualsAdvancedHKCU(hKey, subKey)
                then old(advancedKeys) + {phkOut.value} else old(advancedKeys)
    {
      status, phkOut := reg.Open(hKey, subKey, phkResult);
      if forceLeft && status == ERROR_SUCCESS && phkResult != None && PathEqualsAdvancedHKCU(hKey, subKey) {
        TrackAdvancedKey(phkOut.value);
      }
    }

    /** The test of the `RegQueryValueExW` hook. */
    predicate QueryOverrides(status: Status, hKey: HKey, valueName: Option<string>)
      reads this
    {
      forceLeft && status == ERROR_SUCCESS && hKey in advancedKeys && valueName != None && IEquals(valueName.value, TASKBAR_AL)
    }

    /** Hook of `RegQueryValueExW`: the original's status, type and size
      cells; the buffer the original filled, overridden when forcing is on,
      the read succeeded, the handle is tracked and the value is
      `TaskbarAl`. */
    method RegQueryValueExHook(hKey: HKey, valueName: Option<string>, lpType: Option<DWord>,
                               lpData: array?<Byte>, lpcbData: Option<DWord>)
      returns (status: Status, typeOut: Option<DWord>, sizeOut: Option<DWord>)
      requires Describes(Buf(lpData), lpcbData)
      modifies lpData
      ensures var o := old(reg.QueryCall(hKey, valueName, lpType, Buf(lpData), lpcbData));
              && status == o.status && typeOut == o.kind && sizeOut == o.size
              && Buf(lpData) == if QueryOverrides(status, hKey, valueName) && o.data != None
                                then Some(Overridden(o.kind, o.data.value, o.size)) else o.data
    {
      status, typeOut, sizeOut := reg.Query(hKey, valueName, lpType, lpData, lpcbData);
      if forceLeft && status == ERROR_SUCCESS {
        var tracked := IsAdvancedKey(hKey);
        if tracked && valueName != None && IEquals(valueName.value, TASKBAR_AL) {
          OverrideToLeftIfNeeded(typeOut, lpData, sizeOut);
        }
      }
    }

    /** The test of the `RegGetValueW` hook. */
    predicate GetValueOverrides(status: Status, hKey: HKey, subKey: Option<string>, valueName: Option<string>)
      reads this
    {
      && forceLeft && status == ERROR_SUCCESS && hKey == HKEY_CURRENT_USER
      && subKey != None && IEquals(subKey.value, advancedSubKey)
      && valueName != None && IEquals(valueName.value, TASKBAR_AL)
    }

    /** Hook of `RegGetValueW`: as the query hook, but the test is on the
      path and value name alone; the tracked set is not consulted. */
    method RegGetValueHook(hKey: HKey, subKey: Option<string>, valueName: Option<string>, pdwType: Option<DWord>,
                           pvData: array?<Byte>, pcbData: Option<DWord>)
      returns (status: Status, typeOut: Option<DWord>, sizeOut: Option<DWord>)
      requires Describes(Buf(pvData), pcbData)
      modifies pvData
      ensures var o := old(reg.GetValueCall(hKey, subKey, valueName, pdwType, Buf(pvData), pcbData));
              && status == o.status && typeOut == o.kind && sizeOut == o.size
              && Buf(pvData) == if GetValueOverrides(status, hKey, subKey, valueName) && o.data != None
                                then Some(Overridden(o.kind, o.data.value, o.size)) else o.data
    {
      status, typeOut, sizeOut := reg.GetValue(hKey, subKey, valueName, pdwType, pvData, pcbData);
      if forceLeft && status == ERROR_SUCCESS && hKey == HKEY_CURRENT_USER
         && subKey != None && IEquals(subKey.value, advancedSubKey)
         && valueName != None && IEquals(valueName.value, TASKBAR_AL) {
        OverrideToLeftIfNeeded(typeOut, pvData, sizeOut);
      }
    }

    /** Hook of `RegCloseKey`: the original's outcome; the handle is
      untracked only while forcing is on, so a tracked handle closed while
      forcing is off stays in the set. */
    method RegCloseKeyHook(hKey: HKey) returns (status: Status)
      modifies this`advancedKeys, reg`handles
      ensures var o := old(reg.CloseCall(hKey)); status == o.status && reg.handles == o.handles
      ensures advancedKeys == if forceLeft then old(advancedKeys) - {hKey} else old(advancedKeys)
      ensures !forceLeft && hKey in old(advancedKeys) ==> hKey in advancedKeys
    {
      if forceLeft {
        var tracked := IsAdvancedKey(hKey);
        if tracked {
          UntrackKey(hKey);
        }
      }
      status := reg.Close(hKey);
    }

    // -------------------------------------------------------------------
    // Capture and write

    /** `RegOpenKeyExW` called by name from the mod's own code: the hook once
      the hooks are in place, else the original. */
    method CallRegOpenKeyEx(hKey: HKey, subKey: Option<string>, phkResult: Option<HKey>)
      returns (status: Status, phkOut: Option<HKey>)
      modifies this`advancedKeys, reg`handles
      ensures var o := old(reg.OpenCall(hKey, subKey, phkResult));
              status == o.status && phkOut == o.phk && reg.handles == o.handles
      ensures advancedKeys ==
                if hooksInstalled && forceLeft && status == ERROR_SUCCESS && phkResult != None && PathEqualsAdvancedHKCU(hKey, subKey)
                then old(advancedKeys) + {phkOut.value} else old(advancedKeys)
    {
      if hooksInstalled {
        status, phkOut := RegOpenKeyExHook(hKey, subKey, phkResult);
      } else {
        status, phkOut := reg.Open(hKey, subKey, phkResult);
      }
    }

    /** `RegQueryValueExW` called by name from the mod's own code. */
    method CallRegQueryValueEx(hKey: HKey, valueName: Option<string>, lpType: Option<DWord>,
                               lpData: array?<Byte>, lpcbData: Option<DWord>)
      returns (status: Status, typeOut: Option<DWord>, sizeOut: Option<DWord>)
      requires Describes(Buf(lpData), lpcbData)
      modifies lpData
      ensures var o := old(reg.QueryCall(hKey, valueName, lpType, Buf(lpData), lpcbData));
              && status == o.status && typeOut == o.kind && sizeOut == o.size
              && Buf(lpData) == if hooksInstalled && QueryOverrides(status, hKey, valueName) && o.data != None
                                then Some(Overridden(o.kind, o.data.value, o.size)) else o.data
    {
      if hooksInstalled {
        status, typeOut, sizeOut := RegQueryValueExHook(hKey, valueName, lpType, lpData, lpcbData);
      } else {
        status, typeOut, sizeOut := reg.Query(hKey, valueName, lpType, lpData, lpcbData);
      }
    }

    /** `RegCloseKey` called by name from the mod's own code. */
    method CallRegCloseKey(hKey: HKey) returns (status: Status)
      modifies this`advancedKeys, reg`handles
      ensures var o := old(reg.CloseCall(hKey)); status == o.status && reg.handles == o.handles
      ensures advancedKeys == if hooksInstalled && forceLeft then old(advancedKeys) - {hKey} else old(advancedKeys)
    {
      if hooksInstalled {
        status := RegCloseKeyHook(hKey);
      } else {
        status := reg.Close(hKey);
      }
    }

    /** The read `SaveOriginalIfNeeded` makes once the key `p` is open as
      `hKey`: `TaskbarAl` by name into a 4-byte `val` pre-set to 1, with the
      type cell pre-set to `REG_DWORD`; the value of `val` when the read
      succeeds with type `REG_DWORD`. */
    method QueryAlignment(hKey: HKey, ghost p: KeyPath) returns (captured: Option<DWord>)
      requires reg.Resolve(hKey) == Some(p)
      requires hooksInstalled && forceLeft ==> hKey in advancedKeys
      ensures captured == Capture(ValueIn(reg.keys, p, Some(TASKBAR_AL)), hooksInstalled && forceLeft)
    {
      ghost var found := ValueIn(reg.keys, p, Some(TASKBAR_AL));
      ghost var overriding := hooksInstalled && forceLeft;
      var val := new Byte[4];
      CopyInto(val, LE32(CENTER));
      IEqualsIffSameFold(TASKBAR_AL, TASKBAR_AL);
      assert reg.QueryLookup(hKey, Some(TASKBAR_AL)) == found;
      ghost var o := ReadInto(found, Some(REG_DWORD), Some(LE32(CENTER)), Some(4));
      var queried, kind, size := CallRegQueryValueEx(hKey, Some(TASKBAR_AL), Some(REG_DWORD), val, Some(4));
      assert val[..] == if overriding && o.status == ERROR_SUCCESS then Overridden(o.kind, o.data.value, o.size) else o.data.value;
      CaptureIsRead(found, overriding, o, val[..]);
      if queried == ERROR_SUCCESS && kind == Some(REG_DWORD) {
        captured := Some(DecodeLE32(val[..]));
      } else {
        captured := None;
      }
    }

    /** `SaveOriginalIfNeeded`. Once saved it does nothing. Otherwise it
      opens and reads by name, so once the hooks are in place the read goes
      through the query hook: with forcing on, the handle it opened is
      tracked and a 4-byte `REG_DWORD` is recorded as left. */
    method SaveOriginalIfNeeded()
      modifies this`originalValue, this`originalSaved, this`advancedKeys, reg`handles
      ensures old(originalSaved) ==> unchanged(this) && unchanged(reg)
      ensures Remembered() == CaptureOnce(old(Remembered()), old(StoredAlignment(reg.keys)), hooksInstalled && forceLeft)
      ensures reg.handles == old(reg.handles)
      ensures advancedKeys ==
                if !old(originalSaved) && hooksInstalled && forceLeft && AdvancedPath() in reg.keys
                then old(advancedKeys) - {Handle(old(reg.NextHandle()))} else old(advancedKeys)
    {
      if originalSaved {
        return;
      }
      ghost var h := reg.NextHandle();
      IEqualsIffSameFold(advancedSubKey, advancedSubKey);
      var status, hKey := CallRegOpenKeyEx(HKEY_CURRENT_USER, Some(advancedSubKey), Some(NULL_HKEY));
      if status == ERROR_SUCCESS {
        var captured := QueryAlignment(hKey.value, AdvancedPath());
        if captured.Some? {
          originalValue := captured.value;
          originalSaved := true;
        }
        var closed := CallRegCloseKey(hKey.value);
        assert old(reg.handles)[h := AdvancedPath()] - {h} == old(reg.handles);
      }
    }

    /** `WriteTaskbarAlignment`: create the Advanced key, set `TaskbarAl` to
      `REG_DWORD val`, close the handle (through the close hook once hooks
      are in place) and broadcast; nothing at all when the create fails. */
    method WriteTaskbarAlignment(val: DWord)
      modifies this`advancedKeys, reg`keys, reg`handles, reg`broadcasts
      ensures reg.keys == Written(old(reg.keys), reg.readOnly, val)
      ensures reg.handles == old(reg.handles)
      ensures reg.broadcasts == old(reg.broadcasts) + if reg.readOnly then 0 else 1
      ensures advancedKeys ==
                if !reg.readOnly && hooksInstalled && forceLeft
                then old(advancedKeys) - {Handle(old(reg.NextHandle()))} else old(advancedKeys)
    {
      var created, hKey := reg.Create(HKEY_CURRENT_USER, advancedSubKey);
      if created == ERROR_SUCCESS {
        var stored := reg.SetValue(hKey, TASKBAR_AL, DwordValue(val));
        assert reg.keys == Written(old(reg.keys), reg.readOnly, val);
        var closed := CallRegCloseKey(hKey);
        reg.BroadcastTraySettings();
      }
    }

    // -------------------------------------------------------------------
    // Lifecycle

    /** `LoadSettings`: the host's integer setting `forceLeft`, non-zero is on. */
    method LoadSettings(forceLeftSetting: int)
      modifies this`forceLeft
      ensures forceLeft == (forceLeftSetting != 0)
    {
      forceLeft := forceLeftSetting != 0;
    }

    /** `Wh_ModInit`: load the setting, capture (no hook is in place yet),
      write 0 when forcing and otherwise the remembered value, even the
      default 1 when nothing was captured; then hook the four calls when
      advapi32 is found. Always succeeds. */
    method ModInit(forceLeftSetting: int, advapiFound: bool) returns (ok: bool)
      requires !hooksInstalled
      modifies this, reg`keys, reg`handles, reg`broadcasts
      ensures ok
      ensures forceLeft == (forceLeftSetting != 0) && hooksInstalled == advapiFound
      ensures Remembered() == CaptureOnce(old(Remembered()), old(StoredAlignment(reg.keys)), false)
      ensures reg.keys == Written(old(reg.keys), reg.readOnly, if forceLeft then LEFT else originalValue)
      ensures reg.handles == old(reg.handles) && advancedKeys == old(advancedKeys)
      ensures reg.broadcasts == old(reg.broadcasts) + if reg.readOnly then 0 else 1
    {
      LoadSettings(forceLeftSetting);
      SaveOriginalIfNeeded();
      if forceLeft {
        WriteTaskbarAlignment(LEFT);
      } else {
        WriteTaskbarAlignment(originalValue);
      }
      if advapiFound {
        hooksInstalled := true;
      }
      ok := true;
    }

    /** `Wh_ModUninit`: write the remembered value back if one was saved,
      whatever the setting. */
    method ModUninit()
      modifies this`advancedKeys, reg`keys, reg`handles, reg`broadcasts
      ensures reg.keys == if originalSaved then Written(old(reg.keys), reg.readOnly, originalValue) else old(reg.keys)
      ensures reg.handles == old(reg.handles)
      ensures reg.broadcasts == old(reg.broadcasts) + if originalSaved && !reg.readOnly then 1 else 0
      ensures advancedKeys ==
                if originalSaved && !reg.readOnly && hooksInstalled && forceLeft
                then old(advancedKeys) - {Handle(old(reg.NextHandle()))} else old(advancedKeys)
    {
      if originalSaved {
        WriteTaskbarAlignment(originalValue);
      }
    }

    /** `Wh_ModSettingsChanged`: reload the setting; when on, capture (through
      the hooks) and write 0; when off, write the remembered value back only
      if one was saved. */
    method ModSettingsChanged(forceLeftSetting: int)
      modifies this`forceLeft, this`originalValue, this`originalSaved, this`advancedKeys
      modifies reg`keys, reg`handles, reg`broadcasts
      ensures forceLeft == (forceLeftSetting != 0)
      ensures Remembered() == if forceLeft then CaptureOnce(old(Remembered()), old(StoredAlignment(reg.keys)), hooksInstalled)
                              else old(Remembered())
      ensures reg.keys == if forceLeft then Written(old(reg.keys), reg.readOnly, LEFT)
                          else if originalSaved then Written(old(reg.keys), reg.readOnly, originalValue)
                          else old(reg.keys)
      ensures reg.handles == old(reg.handles)
      ensures reg.broadcasts == old(reg.broadcasts) + if (forceLeft || originalSaved) && !reg.readOnly then 1 else 0
      ensures !forceLeft ==> advancedKeys == old(advancedKeys)
      ensures forceLeft ==>
                advancedKeys ==
                  if hooksInstalled && ((!old(originalSaved) && AdvancedPath() in old(reg.keys)) || !reg.readOnly)
                  then old(advancedKeys) - {Handle(old(reg.NextHandle()))} else old(advancedKeys)
    {
      LoadSettings(forceLeftSetting);
      if forceLeft {
        SaveOriginalIfNeeded();
        WriteTaskbarAlignment(LEFT);
      } else {
        if originalSaved {
          WriteTaskbarAlignment(originalValue);
        }
      }
    }
  }
}
