/** A model of the part of the Windows registry API that the mod calls, as the
    mod finds it before any hook is installed (the "originals"). The opens,
    reads and closes are each described by a pure function of the registry
    state; the methods of `Registry` perform the call and promise exactly
    that outcome, so that a hook can promise "the same outcome as the
    original" plus its own effect. The create, the value write and the
    broadcast are methods whose contracts give the new state directly.

    Names of keys and values are compared case-insensitively by the registry;
    the model stores them folded (see `Text.Fold`). */
module Win32Registry {
  import opened Text

  /** A nullable pointer: `None` is `nullptr`, `Some(x)` points at a cell
      holding `x`. */
  datatype Option<T> = None | Some(value: T)

  /** A 32-bit unsigned integer (`DWORD`). */
  type DWord = x: int | 0 <= x < 0x1_0000_0000

  /** One byte of a buffer. */
  type Byte = x: int | 0 <= x < 0x100

  /** The bytes of a registry value; their count fits in a `DWORD`. */
  type Bytes = s: seq<Byte> | |s| < 0x1_0000_0000

  /** `LSTATUS`, a Win32 error code. */
  type Status = int

  const ERROR_SUCCESS: Status := 0
  const ERROR_FILE_NOT_FOUND: Status := 2
  const ERROR_ACCESS_DENIED: Status := 5
  const ERROR_INVALID_HANDLE: Status := 6
  const ERROR_INVALID_PARAMETER: Status := 87
  const ERROR_MORE_DATA: Status := 234

  /** The type tag of a 32-bit little-endian number. */
  const REG_DWORD: DWord := 4

  /** The predefined root keys. */
  datatype Hive = ClassesRoot | CurrentUser | LocalMachine | Users

  /** `HKEY`: a predefined root, or a handle number handed out by an open or
      create call (number 0 is `NULL`; a number that is not open is invalid). */
  datatype HKey = Predefined(hive: Hive) | Handle(id: nat)

  const HKEY_CURRENT_USER: HKey := Predefined(CurrentUser)
  const NULL_HKEY: HKey := Handle(0)

  /** The full path of a key: its hive and its folded sub-key path
      ("" for the hive's root). */
  datatype KeyPath = KeyPath(hive: Hive, sub: string)

  /** A registry value: its type tag and its data. */
  datatype StoredValue = StoredValue(kind: DWord, data: Bytes)

  /** The keys of the registry, each with its values by folded name. */
  type Tree = map<KeyPath, map<string, StoredValue>>

  // ---------------------------------------------------------------------
  // DWORD encoding

  /** The four little-endian bytes of a `DWORD`. */
  function LE32(v: DWord): (b: Bytes)
    ensures |b| == 4
  {
    [v % 0x100, v / 0x100 % 0x100, v / 0x100 / 0x100 % 0x100, v / 0x100 / 0x100 / 0x100]
  }

  /** The `DWORD` held in the first four bytes of a buffer. */
  function DecodeLE32(b: seq<Byte>): (v: DWord)
    requires |b| >= 4
  {
    b[0] as int + 0x100 * (b[1] as int + 0x100 * (b[2] as int + 0x100 * b[3] as int))
  }

  /** Division by 256 splits a number into its quotient and low byte. */
  lemma ByteSplit(x: int, q: int, r: int)
    requires 0 <= r < 0x100 && x == 0x100 * q + r
    ensures x / 0x100 == q && x % 0x100 == r
  {
  }

  lemma DecodeEncode(v: DWord)
    ensures DecodeLE32(LE32(v)) == v
  {
    var q1 := v / 0x100;
    var q2 := q1 / 0x100;
    var q3 := q2 / 0x100;
    assert v == v % 0x100 + 0x100 * q1;
    assert q1 == q1 % 0x100 + 0x100 * q2;
    assert q2 == q2 % 0x100 + 0x100 * q3;
    assert q3 < 0x100;
  }

  lemma EncodeDecode(b: seq<Byte>)
    requires |b| == 4
    ensures LE32(DecodeLE32(b)) == b
  {
    var b0, b1, b2, b3: int := b[0], b[1], b[2], b[3];
    var v := DecodeLE32(b);
    ByteSplit(v, b1 + 0x100 * (b2 + 0x100 * b3), b0);
    ByteSplit(b1 + 0x100 * (b2 + 0x100 * b3), b2 + 0x100 * b3, b1);
    ByteSplit(b2 + 0x100 * b3, b3, b2);
    assert LE32(v)[0] == b[0] && LE32(v)[1] == b[1] && LE32(v)[2] == b[2] && LE32(v)[3] == b[3];
  }

  /** A `REG_DWORD` value holding `v`. */
  function DwordValue(v: DWord): (sv: StoredValue)
  {
    StoredValue(REG_DWORD, LE32(v))
  }

  // ---------------------------------------------------------------------
  // Paths, values and handles

  /** The key reached from `base` by the sub-key argument of an open or read:
      the key itself for `NULL` or "", else the folded relative path. */
  function Child(base: KeyPath, sub: Option<string>): (p: KeyPath)
  {
    if sub == None || sub.value == [] then base
    else KeyPath(base.hive, if base.sub == [] then Fold(sub.value) else base.sub + "\\" + Fold(sub.value))
  }

  /** The outcome of looking a value up: found, or the error status. */
  datatype Lookup = Found(value: StoredValue) | Missing(status: Status)

  /** The value called `name` (`NULL` is the default value "") in key `p`. */
  function ValueIn(keys: Tree, p: KeyPath, name: Option<string>): (found: Lookup)
  {
    var n := Fold(if name == None then [] else name.value);
    if p in keys && n in keys[p] then Found(keys[p][n]) else Missing(ERROR_FILE_NOT_FOUND)
  }

  /** The tree after storing `v` under `name` in key `p` (creating the key);
      no other value of `p` or of any other key changes. */
  function SetIn(keys: Tree, p: KeyPath, name: string, v: StoredValue): (r: Tree)
    ensures ValueIn(r, p, Some(name)) == Found(v)
    ensures forall q, n :: q != p ==> ValueIn(r, q, n) == ValueIn(keys, q, n)
    ensures forall n :: Fold(n) != Fold(name) ==> ValueIn(r, p, Some(n)) == ValueIn(keys, p, Some(n))
  {
    keys[p := (if p in keys then keys[p] else map[])[Fold(name) := v]]
  }

  /** The smallest handle number at or above `k` that is not in use. */
  function LowestFree(used: set<nat>, k: nat): (r: nat)
    ensures k <= r && r !in used
    ensures forall j :: k <= j < r ==> j in used
    decreases used
  {
    if k in used then LowestFree(used - {k}, k + 1) else k
  }

  // ---------------------------------------------------------------------
  // Reading into a caller's buffer

  /** The caller's cells after a read: the status, the type cell `*lpType`,
      the size cell `*lpcbData` and the data buffer (`None` for `nullptr`). */
  datatype ReadOut = ReadOut(status: Status, kind: Option<DWord>, size: Option<DWord>, data: Option<seq<Byte>>)

  /** The size cell describes the buffer: a caller never claims more room
      than the buffer has. */
  predicate Describes(buf: Option<seq<Byte>>, size: Option<DWord>)
  {
    buf != None && size != None ==> size.value <= |buf.value|
  }

  /** How `RegQueryValueExW` / `RegGetValueW` fill the caller's cells from a
      lookup: a data buffer without a size cell is refused; a missing value
      leaves every cell alone; a `NULL` buffer asks for the size only; a
      buffer too small reports the size needed with `ERROR_MORE_DATA`;
      otherwise the data are copied to the front of the buffer. */
  function ReadInto(found: Lookup, kindCell: Option<DWord>, buf: Option<seq<Byte>>, sizeCell: Option<DWord>): (o: ReadOut)
    requires Describes(buf, sizeCell)
    ensures o.status == ERROR_SUCCESS ==> Describes(o.data, o.size)
    ensures (o.data == None) == (buf == None)
    ensures buf != None ==> |o.data.value| == |buf.value|
    ensures o.status == ERROR_SUCCESS <==> found.Found? && (buf != None ==> sizeCell != None && |found.value.data| <= sizeCell.value)
    ensures o.status == ERROR_SUCCESS ==>
              && o.kind == (if kindCell == None then None else Some(found.value.kind))
              && o.size == (if sizeCell == None then None else Some(|found.value.data|))
              && (buf != None ==> o.data.value == found.value.data + buf.value[|found.value.data|..])
    ensures o.status != ERROR_SUCCESS ==> o.data == buf
  {
    if buf != None && sizeCell == None then ReadOut(ERROR_INVALID_PARAMETER, kindCell, sizeCell, buf)
    else match found
      case Missing(s) => ReadOut(if s == ERROR_SUCCESS then ERROR_FILE_NOT_FOUND else s, kindCell, sizeCell, buf)
      case Found(v) =>
        var kind := if kindCell == None then None else Some(v.kind);
        var len: DWord := |v.data|;
        if buf == None then ReadOut(ERROR_SUCCESS, kind, if sizeCell == None then None else Some(len), None)
        else if sizeCell.value < len then ReadOut(ERROR_MORE_DATA, kind, Some(len), buf)
        else ReadOut(ERROR_SUCCESS, kind, Some(len), Some(v.data + buf.value[len..]))
  }

  /** The contents of a caller's buffer, `None` for `nullptr`. */
  function Buf(a: array?<Byte>): (contents: Option<seq<Byte>>)
    reads a
  {
    if a == null then None else Some(a[..])
  }

  /** The outcome of an open call: status, the `*phkResult` cell, and the
      handle table afterwards. */
  datatype OpenOut = OpenOut(status: Status, phk: Option<HKey>, handles: map<nat, KeyPath>)

  /** The outcome of a close call: status and the handle table afterwards. */
  datatype CloseOut = CloseOut(status: Status, handles: map<nat, KeyPath>)

  /** The system's registry, its open handles, whether writes are refused
      (permissions), and the count of `WM_SETTINGCHANGE` "TraySettings"
      broadcasts it has received. */
  class Registry {
    var keys: Tree
    var handles: map<nat, KeyPath>
    var readOnly: bool
    var broadcasts: nat

    constructor (keys: Tree, readOnly: bool)
      ensures this.keys == keys && handles == map[] && this.readOnly == readOnly && broadcasts == 0
    {
      this.keys := keys;
      handles := map[];
      this.readOnly := readOnly;
      broadcasts := 0;
    }

    /** The key a handle denotes, if it is a root or an open handle. */
    function Resolve(k: HKey): (p: Option<KeyPath>)
      reads this
    {
      match k
      case Predefined(h) => Some(KeyPath(h, []))
      case Handle(id) => if id in handles then Some(handles[id]) else None
    }

    /** The handle number the next successful open or create hands out. */
    function NextHandle(): (id: nat)
      reads this
      ensures id != 0 && id !in handles
    {
      LowestFree(handles.Keys, 1)
    }

    /** `RegOpenKeyExW` as the original does it (access rights are not
      modelled). */
    function OpenCall(k: HKey, sub: Option<string>, phk: Option<HKey>): (o: OpenOut)
      reads this
      ensures (o.phk == None) == (phk == None)
      ensures o.status == ERROR_SUCCESS <==> phk != None && Resolve(k) != None && Child(Resolve(k).value, sub) in keys
      ensures o.status == ERROR_SUCCESS ==>
                o.phk == Some(Handle(NextHandle())) && o.handles == handles[NextHandle() := Child(Resolve(k).value, sub)]
      ensures o.status != ERROR_SUCCESS ==> o.handles == handles
    {
      if phk == None then OpenOut(ERROR_INVALID_PARAMETER, None, handles)
      else match Resolve(k)
        case None => OpenOut(ERROR_INVALID_HANDLE, Some(NULL_HKEY), handles)
        case Some(base) =>
          var p := Child(base, sub);
          if p !in keys then OpenOut(ERROR_FILE_NOT_FOUND, Some(NULL_HKEY), handles)
          else OpenOut(ERROR_SUCCESS, Some(Handle(NextHandle())), handles[NextHandle() := p])
    }

    method Open(k: HKey, sub: Option<string>, phk: Option<HKey>) returns (status: Status, phkOut: Option<HKey>)
      modifies this`handles
      ensures var o := old(OpenCall(k, sub, phk)); status == o.status && phkOut == o.phk && handles == o.handles
    {
      var o := OpenCall(k, sub, phk);
      status, phkOut, handles := o.status, o.phk, o.handles;
    }

    /** What `RegQueryValueExW` looks up: the value `name` of the key the
      handle denotes. */
    function QueryLookup(k: HKey, name: Option<string>): (found: Lookup)
      reads this
    {
      match Resolve(k)
      case None => Missing(ERROR_INVALID_HANDLE)
      case Some(p) => ValueIn(keys, p, name)
    }

    /** `RegQueryValueExW` as the original does it. */
    function QueryCall(k: HKey, name: Option<string>, kindCell: Option<DWord>,
                       buf: Option<seq<Byte>>, sizeCell: Option<DWord>): (o: ReadOut)
      reads this
      requires Describes(buf, sizeCell)
    {
      ReadInto(QueryLookup(k, name), kindCell, buf, sizeCell)
    }

    method Query(k: HKey, name: Option<string>, kindCell: Option<DWord>, data: array?<Byte>, sizeCell: Option<DWord>)
      returns (status: Status, kindOut: Option<DWord>, sizeOut: Option<DWord>)
      requires Describes(Buf(data), sizeCell)
      modifies data
      ensures var o := old(QueryCall(k, name, kindCell, Buf(data), sizeCell));
              status == o.status && kindOut == o.kind && sizeOut == o.size && Buf(data) == o.data
    {
      var o := QueryCall(k, name, kindCell, Buf(data), sizeCell);
      status, kindOut, sizeOut := o.status, o.kind, o.size;
      if data != null {
        CopyInto(data, o.data.value);
      }
    }

    /** What `RegGetValueW` looks up: the value `name` of the sub-key `sub`
      of the key the handle denotes. */
    function GetValueLookup(k: HKey, sub: Option<string>, name: Option<string>): (found: Lookup)
      reads this
    {
      match Resolve(k)
      case None => Missing(ERROR_INVALID_HANDLE)
      case Some(p) => ValueIn(keys, Child(p, sub), name)
    }

    /** `RegGetValueW` as the original does it (its `dwFlags` type filter and
      string handling are not modelled). */
    function GetValueCall(k: HKey, sub: Option<string>, name: Option<string>, kindCell: Option<DWord>,
                          buf: Option<seq<Byte>>, sizeCell: Option<DWord>): (o: ReadOut)
      reads this
      requires Describes(buf, sizeCell)
    {
      ReadInto(GetValueLookup(k, sub, name), kindCell, buf, sizeCell)
    }

    method GetValue(k: HKey, sub: Option<string>, name: Option<string>, kindCell: Option<DWord>,
                    data: array?<Byte>, sizeCell: Option<DWord>)
      returns (status: Status, kindOut: Option<DWord>, sizeOut: Option<DWord>)
      requires Describes(Buf(data), sizeCell)
      modifies data
      ensures var o := old(GetValueCall(k, sub, name, kindCell, Buf(data), sizeCell));
              status == o.status && kindOut == o.kind && sizeOut == o.size && Buf(data) == o.data
    {
      var o := GetValueCall(k, sub, name, kindCell, Buf(data), sizeCell);
      status, kindOut, sizeOut := o.status, o.kind, o.size;
      if data != null {
        CopyInto(data, o.data.value);
      }
    }

    /** `RegCloseKey` as the original does it: an open handle is released,
      a root closes trivially, anything else is an invalid handle. */
    function CloseCall(k: HKey): (o: CloseOut)
      reads this
      ensures o.handles == if k.Handle? then handles - {k.id} else handles
    {
      match k
      case Predefined(_) => CloseOut(ERROR_SUCCESS, handles)
      case Handle(id) =>
        if id in handles then CloseOut(ERROR_SUCCESS, handles - {id}) else CloseOut(ERROR_INVALID_HANDLE, handles)
    }

    method Close(k: HKey) returns (status: Status)
      modifies this`handles
      ensures var o := old(CloseCall(k)); status == o.status && handles == o.handles
    {
      var o := CloseCall(k);
      status, handles := o.status, o.handles;
    }

    /** `RegCreateKeyExW`: opens `sub` under `k`, creating the key if it is
      missing; refused when the registry is read-only. */
    method Create(k: HKey, sub: string) returns (status: Status, hk: HKey)
      modifies this`keys, this`handles
      ensures status == ERROR_SUCCESS <==> !readOnly && old(Resolve(k)) != None
      ensures status == ERROR_SUCCESS ==>
                var p := Child(old(Resolve(k)).value, Some(sub));
                && hk == Handle(old(NextHandle()))
                && keys == (if p in old(keys) then old(keys) else old(keys)[p := map[]])
                && handles == old(handles)[hk.id := p]
      ensures status != ERROR_SUCCESS ==> keys == old(keys) && handles == old(handles)
    {
      var base := Resolve(k);
      if readOnly {
        status, hk := ERROR_ACCESS_DENIED, NULL_HKEY;
      } else if base == None {
        status, hk := ERROR_INVALID_HANDLE, NULL_HKEY;
      } else {
        var p := Child(base.value, Some(sub));
        if p !in keys {
          keys := keys[p := map[]];
        }
        var id := NextHandle();
        handles := handles[id := p];
        status, hk := ERROR_SUCCESS, Handle(id);
      }
    }

    /** `RegSetValueExW`: stores `v` under `name` in the key `k` denotes. */
    method SetValue(k: HKey, name: string, v: StoredValue) returns (status: Status)
      modifies this`keys
      ensures status == ERROR_SUCCESS <==> !readOnly && old(Resolve(k)) != None
      ensures keys == if status == ERROR_SUCCESS then SetIn(old(keys), old(Resolve(k)).value, name, v) else old(keys)
    {
      var p := Resolve(k);
      if readOnly {
        status := ERROR_ACCESS_DENIED;
      } else if p == None {
        status := ERROR_INVALID_HANDLE;
      } else {
        keys := SetIn(keys, p.value, name, v);
        status := ERROR_SUCCESS;
      }
    }

    /** `SendMessageTimeoutW(HWND_BROADCAST, WM_SETTINGCHANGE, 0, "TraySettings", ...)`:
      the listeners' reaction and the timeout are not modelled. */
    method BroadcastTraySettings()
      modifies this`broadcasts
      ensures broadcasts == old(broadcasts) + 1
    {
      broadcasts := broadcasts + 1;
    }
  }

  /** Writes `s` over the whole of `a`. */
  method CopyInto(a: array<Byte>, s: seq<Byte>)
    requires |s| == a.Length
    modifies a
    ensures a[..] == s
  {
    forall i | 0 <= i < a.Length {
      a[i] := s[i];
    }
  }
}
