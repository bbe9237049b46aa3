/**
 The values that travel between the node and the BlueZ stack over D-Bus,
 reduced to what the bookkeeping looks at: property dictionaries keyed by
 property name, interface dictionaries keyed by interface name, and the
 interface names themselves.
 */
module DBusTypes {
  import opened Wrappers

  /** A key of a D-Bus dictionary: `q` and `y` keys are numbers, `s` keys are text. */
  datatype DictKey = NumKey(n: nat) | TextKey(t: string)

  /** A D-Bus variant as the program sees it after unmarshalling. */
  datatype Value =
    | Text(s: string)
    | Flag(b: bool)
    | Number(i: int)
    | TextArray(items: seq<string>)
    | Dict(signature: string, entries: map<DictKey, seq<bv8>>)

  /** A property dictionary (`a{sv}`), e.g. a device's `Name`, `Address`, `Connected`, `RSSI`. */
  type Props = map<string, Value>

  /** The interfaces an object exposes, each with its property dictionary (`a{sa{sv}}`). */
  type Interfaces = map<string, Props>

  /** An object path such as `/org/bluez/hci0/dev_AA_BB_CC_DD_EE_FF`. */
  type Path = string

  /** BlueZ interface names; the constants module that defines them is not part of this model. */
  const DeviceInterface: string := "org.bluez.Device1"
  const AdvertisementInterface: string := "org.bluez.LEAdvertisement1"
  const AdvertisingManagerInterface: string := "org.bluez.LEAdvertisingManager1"

  /** Python truthiness of an unmarshalled variant, as used by `if properties["Connected"]`. */
  function Truthy(v: Value): (r: bool)
    ensures v.Flag? ==> (r <==> v.b)
    ensures v.Text? ==> (r <==> v.s != "")
    ensures v.Number? ==> (r <==> v.i != 0)
  {
    match v
    case Text(s) => s != ""
    case Flag(b) => b
    case Number(i) => i != 0
    case TextArray(items) => items != []
    case Dict(_, entries) => entries != map[]
  }

  /** `d.get(key)`: the value under `key`, or `None` when the key is absent. */
  function Lookup<K, V>(m: map<K, V>, k: K): (r: Option<V>)
    ensures r.Some? <==> k in m
    ensures r.Some? ==> r.value == m[k]
  {
    if k in m then Some(m[k]) else None
  }
}
