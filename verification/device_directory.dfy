/**
 The device directory (`devices_found`), the liveness flags (`devices_info`),
 the name-admission test and the filters built on them. Every handler is one
 atomic transformation of the maps it touches.
 */
module DeviceDirectory {
  import opened DBusTypes
  import opened Text

  /** Every device reported by BlueZ, keyed by object path, with its property dictionary. */
  type Directory = map<Path, Props>

  /** The per-device "seen" flag: answered a liveness probe since discovery began. */
  type SeenFlags = map<Path, bool>

  /** Name prefix of the nodes this program looks for. */
  const DeviceFind: string := "BT-ScatterNode-"

  /** BlueZ accepts at most 29 bytes of advertised local name. */
  const MaxLocalNameLength: nat := 29

  /** The character class `[a-f\d]`. */
  predicate IsLowerHex(c: char) {
    IsDigit(c) || ('a' <= c <= 'f')
  }

  /** Exactly eight characters of `[a-f\d]`. */
  predicate IsHexId(s: string) {
    |s| == 8 && forall i :: 0 <= i < |s| ==> IsLowerHex(s[i])
  }

  /** `re.search("^" + re.escape(find) + "[a-f\d]{8}$", name)`, computed by position. */
  predicate NameMatches(name: string, find: string) {
    var b := DollarBody(name);
    |b| == |find| + 8 && b[..|find|] == find && IsHexId(b[|find|..])
  }

  /**
   `is_device_matching`: a device matches exactly when it has a textual `Name`
   that is the search prefix followed by eight lower-case hex characters and
   nothing else, up to one trailing newline.
   */
  function IsDeviceMatching(props: Props, find: string): (r: bool)
    ensures r <==> "Name" in props && props["Name"].Text? &&
                   exists h :: IsHexId(h) && (props["Name"].s == find + h || props["Name"].s == find + h + "\n")
  {
    if "Name" in props && props["Name"].Text? then
      NameMatchesIff(props["Name"].s, find);
      NameMatches(props["Name"].s, find)
    else false
  }

  /** The positional test agrees with the pattern's reading: prefix, eight hex characters, optional newline. */
  lemma NameMatchesIff(name: string, find: string)
    ensures NameMatches(name, find) <==> exists h :: IsHexId(h) && (name == find + h || name == find + h + "\n")
  {
    var b := DollarBody(name);
    if NameMatches(name, find) {
      assert b == find + b[|find|..];
      assert IsHexId(b[|find|..]) && (name == find + b[|find|..] || name == find + b[|find|..] + "\n");
    }
    forall h | IsHexId(h) && (name == find + h || name == find + h + "\n")
      ensures NameMatches(name, find)
    {
      if name == find + h {
        assert name[|name| - 1] == h[7];
        assert b == name;
      } else {
        assert b == find + h;
      }
      assert b[..|find|] == find;
      assert b[|find|..] == h;
    }
  }

  /** The node's advertised name: the search prefix followed by its 8-character id. */
  function OwnDeviceName(deviceId: string): string {
    DeviceFind + deviceId
  }

  /** A node whose id is 8 hex characters advertises a name that fits and that its peers admit. */
  lemma OwnNameAdmitted(deviceId: string)
    requires IsHexId(deviceId)
    ensures |OwnDeviceName(deviceId)| <= MaxLocalNameLength
    ensures IsDeviceMatching(map["Name" := Text(OwnDeviceName(deviceId))], DeviceFind)
  {
    assert OwnDeviceName(deviceId) == DeviceFind + deviceId;
  }

  /** The three name examples of the admission rule. */
  lemma MatchingExamples()
    ensures IsDeviceMatching(map["Name" := Text("BT-ScatterNode-1a2b3c4d")], DeviceFind)
    ensures !IsDeviceMatching(map["Name" := Text("BT-ScatterNode-1a2b3c4")], DeviceFind)
    ensures !IsDeviceMatching(map["Name" := Text("OtherName-1a2b3c4d")], DeviceFind)
    ensures !IsDeviceMatching(map["Address" := Text("AA:BB:CC:DD:EE:FF")], DeviceFind)
  {
    var good := "BT-ScatterNode-1a2b3c4d";
    assert good == DeviceFind + "1a2b3c4d";
    assert IsHexId("1a2b3c4d");
    var other := "OtherName-1a2b3c4d";
    assert other[..|DeviceFind|] != DeviceFind by {
      assert other[0] == 'O' && DeviceFind[0] == 'B';
    }
  }

  /** True when the device has answered a liveness probe (`devices_info[path]["seen"]`). */
  predicate IsSeen(info: SeenFlags, path: Path) {
    path in info && info[path]
  }

  /** `get_matching_and_active_devices`: the directory restricted to seen devices with a matching name. */
  function MatchingAndActive(found: Directory, info: SeenFlags, find: string): (r: Directory)
    ensures forall p :: p in r <==> p in found && IsSeen(info, p) && IsDeviceMatching(found[p], find)
    ensures forall p :: p in r ==> r[p] == found[p]
  {
    map p | p in found && IsSeen(info, p) && IsDeviceMatching(found[p], find) :: found[p]
  }

  /** `handle_interface_added`: a new device interface replaces the directory entry for its path. */
  function InterfaceAdded(found: Directory, path: Path, ifaces: Interfaces): (r: Directory)
    ensures DeviceInterface !in ifaces ==> r == found
    ensures DeviceInterface in ifaces ==> path in r && r[path] == ifaces[DeviceInterface]
    ensures forall p :: p != path ==> (p in r <==> p in found)
    ensures forall p :: p != path && p in r ==> r[p] == found[p]
  {
    if DeviceInterface !in ifaces then found
    else found[path := ifaces[DeviceInterface]]
  }

  /**
   `get_device_info_name` returns instead of raising `KeyError`: the path is in
   the directory, and an entry with a `Name` also has an `Address`.
   */
  predicate HasInfoName(found: Directory, p: Path) {
    p in found && ("Name" in found[p] ==> "Address" in found[p])
  }

  /**
   `handle_interface_removed`: deletes a known path whose device interface went
   away. The log line printed before the delete looks the entry up, so an entry
   with a `Name` but no `Address` raises and stays.
   */
  function InterfaceRemoved(found: Directory, path: Path, ifaceNames: seq<string>): (r: Directory)
    ensures DeviceInterface in ifaceNames && HasInfoName(found, path) ==> r.Keys == found.Keys - {path}
    ensures !(DeviceInterface in ifaceNames && HasInfoName(found, path)) ==> r == found
    ensures forall p :: p in r ==> p in found && r[p] == found[p]
  {
    if DeviceInterface !in ifaceNames || path !in found then found
    else if !HasInfoName(found, path) then found
    else found - {path}
  }

  /**
   `handle_properties_changed` with its log line unable to fail: on the device
   interface the changed keys are written over the entry and a new path gets
   the changed map as its entry; every other interface leaves the directory
   alone. This is the behaviour the handler's two branches describe; the
   program as written never reaches the second (`PropertiesChangedAsWritten`).
   */
  function PropertiesChanged(found: Directory, iface: string, changed: Props, path: Path): (r: Directory)
    ensures iface != DeviceInterface ==> r == found
    ensures iface == DeviceInterface ==> path in r
    ensures iface == DeviceInterface ==> forall k :: k in changed ==> k in r[path] && r[path][k] == changed[k]
    ensures iface == DeviceInterface && path in found ==>
              forall k :: k in found[path] && k !in changed ==> k in r[path] && r[path][k] == found[path][k]
    ensures iface == DeviceInterface ==>
              forall k :: k in r[path] ==> k in changed || (path in found && k in found[path])
    ensures forall p :: p != path ==> (p in r <==> p in found)
    ensures forall p :: p != path && p in r ==> r[p] == found[p]
  {
    if iface != DeviceInterface then found
    else if path in found then found[path := found[path] + changed]
    else found[path := changed]
  }

  /**
   `handle_properties_changed` as written: the log line printed before the
   update looks the path up in the directory, so an unknown path (or an entry
   with a `Name` but no `Address`) raises `KeyError` and nothing is written.
   */
  function PropertiesChangedAsWritten(found: Directory, iface: string, changed: Props, path: Path): (r: Directory)
    ensures iface != DeviceInterface || !HasInfoName(found, path) ==> r == found
    ensures path !in found ==> r == found
    ensures iface == DeviceInterface && HasInfoName(found, path) ==> r == PropertiesChanged(found, iface, changed, path)
  {
    if iface != DeviceInterface || !HasInfoName(found, path) then found
    else found[path := found[path] + changed]
  }

  /** A device the directory does not know is never recorded by a property change as written; the corrected handler records it. */
  lemma NewPathNeverRecorded()
    ensures var path := "/org/bluez/hci0/dev_00_11_22_33_44_55";
            var changed := map["Name" := Text("BT-ScatterNode-1a2b3c4d")];
            PropertiesChangedAsWritten(map[], DeviceInterface, changed, path) == map[] &&
            path in PropertiesChanged(map[], DeviceInterface, changed, path)
  {
  }

  /** `find_known_devices`: every managed object with a device interface is written into the directory. */
  function AddKnownDevices(found: Directory, managed: map<Path, Interfaces>): (r: Directory)
    ensures forall p :: p in managed && DeviceInterface in managed[p] ==> p in r && r[p] == managed[p][DeviceInterface]
    ensures forall p :: p in found && !(p in managed && DeviceInterface in managed[p]) ==> p in r && r[p] == found[p]
    ensures forall p :: p in r ==> p in found || p in managed
  {
    found + map p | p in managed && DeviceInterface in managed[p] :: managed[p][DeviceInterface]
  }

  /** Two successive changes to one device merge like one change carrying both, the later winning. */
  lemma PropertiesChangedMerges(found: Directory, path: Path, c1: Props, c2: Props)
    ensures PropertiesChanged(PropertiesChanged(found, DeviceInterface, c1, path), DeviceInterface, c2, path)
         == PropertiesChanged(found, DeviceInterface, c1 + c2, path)
  {
    var first := PropertiesChanged(found, DeviceInterface, c1, path);
    if path in found {
      MergeAssociates(found[path], c1, c2);
      assert first[path := first[path] + c2] == found[path := found[path] + (c1 + c2)];
    } else {
      assert first[path := first[path] + c2] == found[path := c1 + c2];
    }
  }

  /** Merging property dictionaries one after another is merging their merge. */
  lemma MergeAssociates(a: Props, b: Props, c: Props)
    ensures a + b + c == a + (b + c)
  {
  }

  /**
   A name and address written by a property change are read back unmodified
   when the handler gets past its log line; otherwise the directory is unchanged.
   */
  lemma UpsertThenGet(found: Directory, path: Path, name: string, address: string)
    ensures var r := PropertiesChangedAsWritten(found, DeviceInterface, map["Name" := Text(name), "Address" := Text(address)], path);
            (HasInfoName(found, path) ==>
               path in r && "Name" in r[path] && "Address" in r[path] &&
               r[path]["Name"] == Text(name) && r[path]["Address"] == Text(address)) &&
            (!HasInfoName(found, path) ==> r == found)
  {
  }

  /**
   Removing the device interface of a path just added forgets the path and
   nothing else, unless the added entry has a `Name` without an `Address`.
   */
  lemma AddThenRemove(found: Directory, path: Path, ifaces: Interfaces)
    requires DeviceInterface in ifaces
    ensures var props := ifaces[DeviceInterface];
            InterfaceRemoved(InterfaceAdded(found, path, ifaces), path, [DeviceInterface]) ==
            if "Name" in props && "Address" !in props then found[path := props] else found - {path}
  {
  }

  /**
   One pass of the liveness worker while discovery runs (`thread_check_seen_devices`):
   every directory path gets a flag, a path already seen is skipped, any other
   path becomes seen exactly when BlueZ answers its `RSSI` query (`rssi` holds
   the answers that came back). `allSeen` is `might_have_seen_all_devices`.
   */
  method ProbeSeen(found: Directory, info: SeenFlags, rssi: map<Path, int>, order: seq<Path>)
    returns (info': SeenFlags, allSeen: bool)
    requires forall p :: p in found <==> p in order
    ensures forall p :: p in found ==> p in info' && (info'[p] <==> IsSeen(info, p) || p in rssi)
    ensures forall p :: p !in found ==> (p in info' <==> p in info)
    ensures forall p :: p !in found && p in info ==> info'[p] == info[p]
    ensures allSeen <==> forall p :: p in found ==> info'[p]
  {
    info' := info;
    allSeen := true;
    var i := 0;
    while i < |order|
      invariant 0 <= i <= |order|
      invariant forall j :: 0 <= j < i ==>
                  order[j] in info' && (info'[order[j]] <==> IsSeen(info, order[j]) || order[j] in rssi)
      invariant forall p :: p !in order[..i] ==> (p in info' <==> p in info)
      invariant forall p :: p !in order[..i] && p in info ==> info'[p] == info[p]
      invariant allSeen <==> forall j :: 0 <= j < i ==> info'[order[j]]
    {
      var path := order[i];
      if path in info' && info'[path] {
        // already seen: skipped
      } else {
        if path !in info' {
          info' := info'[path := false];
        }
        if path in rssi {
          info' := info'[path := true];
        } else {
          allSeen := false;
        }
      }
      assert order[..i + 1] == order[..i] + [path];
      i := i + 1;
    }
    assert order[..i] == order;
    forall p | p in found
      ensures p in info' && (info'[p] <==> IsSeen(info, p) || p in rssi)
    {
      var j :| 0 <= j < |order| && order[j] == p;
    }
    if !allSeen {
      var j :| 0 <= j < |order| && !info'[order[j]];
      assert order[j] in found;
    }
  }
}
