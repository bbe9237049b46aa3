/**
 The LE advertisement descriptor the node registers with BlueZ: its
 constructor defaults, the property dictionary it serialises to, its object
 path, and the `GetAll` method BlueZ calls on it.
 */
module Advertisement {
  import opened Wrappers
  import opened DBusTypes
  import Decimal
  import Text

  const PathBase: string := "/org/bluez/ldsg/advertisement"

  /** The item BlueZ adds when asked to include the transmit power. */
  const TxPowerInclude: string := "tx-power"

  type DataMap = map<DictKey, seq<bv8>>

  /** The descriptor's fields; every optional one is `None` until a caller sets it. */
  datatype Advertisement = Advertisement(
    path: string,
    adType: string,
    serviceUuids: Option<seq<string>>,
    manufacturerData: Option<DataMap>,
    solicitUuids: Option<seq<string>>,
    serviceData: Option<DataMap>,
    localName: Option<string>,
    includeTxPower: bool,
    data: Option<DataMap>,
    discoverable: Option<bool>)

  /** The property names `Properties` can emit. */
  const PropertyNames: set<string> :=
    {"Type", "ServiceUUIDs", "SolicitUUIDs", "ManufacturerData", "ServiceData",
     "LocalName", "Discoverable", "Includes", "Data"}

  /** A freshly constructed descriptor: only type, name and path are given; it is discoverable. */
  function New(index: int, adType: string, deviceName: Option<string>): (a: Advertisement)
    ensures a.path == PathBase + Decimal.IntToString(index)
    ensures a.adType == adType && a.localName == deviceName
    ensures a.serviceUuids.None? && a.solicitUuids.None? && a.manufacturerData.None?
    ensures a.serviceData.None? && a.data.None? && !a.includeTxPower
    ensures a.discoverable == Some(true)
  {
    Advertisement(PathBase + Decimal.IntToString(index), adType, None, None, None, None,
                  deviceName, false, None, Some(true))
  }

  /** The value the serialiser writes under property `k`, if it writes one. */
  function Field(a: Advertisement, k: string): Option<Value> {
    match k
    case "Type" => Some(Text(a.adType))
    case "ServiceUUIDs" => if a.serviceUuids.Some? then Some(TextArray(a.serviceUuids.value)) else None
    case "SolicitUUIDs" => if a.solicitUuids.Some? then Some(TextArray(a.solicitUuids.value)) else None
    case "ManufacturerData" =>
      if a.manufacturerData.Some? then Some(Dict("qv", a.manufacturerData.value)) else None
    case "ServiceData" =>
      // nested under the manufacturer-data test in the serialiser
      if a.manufacturerData.Some? && a.serviceData.Some? then Some(Dict("sv", a.serviceData.value)) else None
    case "LocalName" => if a.localName.Some? then Some(Text(a.localName.value)) else None
    case "Discoverable" => if a.discoverable == Some(true) then Some(Flag(true)) else None
    case "Includes" => if a.includeTxPower then Some(TextArray([TxPowerInclude])) else None
    case "Data" => if a.data.Some? then Some(Dict("yv", a.data.value)) else None
    case _ => None
  }

  /** The advertisement's property dictionary: `Type` always, every other field only when set. */
  function Properties(a: Advertisement): (p: Props)
    ensures p.Keys <= PropertyNames
    ensures "Type" in p && p["Type"] == Text(a.adType)
    ensures "ServiceUUIDs" in p <==> a.serviceUuids.Some?
    ensures a.serviceUuids.Some? ==> p["ServiceUUIDs"] == TextArray(a.serviceUuids.value)
    ensures "SolicitUUIDs" in p <==> a.solicitUuids.Some?
    ensures a.solicitUuids.Some? ==> p["SolicitUUIDs"] == TextArray(a.solicitUuids.value)
    ensures "ManufacturerData" in p <==> a.manufacturerData.Some?
    ensures a.manufacturerData.Some? ==> p["ManufacturerData"] == Dict("qv", a.manufacturerData.value)
    ensures "ServiceData" in p <==> a.manufacturerData.Some? && a.serviceData.Some?
    ensures "ServiceData" in p ==> p["ServiceData"] == Dict("sv", a.serviceData.value)
    ensures "LocalName" in p <==> a.localName.Some?
    ensures a.localName.Some? ==> p["LocalName"] == Text(a.localName.value)
    ensures "Discoverable" in p <==> a.discoverable == Some(true)
    ensures "Discoverable" in p ==> p["Discoverable"] == Flag(true)
    ensures "Includes" in p <==> a.includeTxPower
    ensures a.includeTxPower ==> p["Includes"] == TextArray([TxPowerInclude])
    ensures "Data" in p <==> a.data.Some?
    ensures a.data.Some? ==> p["Data"] == Dict("yv", a.data.value)
  {
    map k | k in PropertyNames && Field(a, k).Some? :: Field(a, k).value
  }

  /** `get_properties`: the property dictionary, filed under the advertising-manager interface. */
  function GetProperties(a: Advertisement): (r: Interfaces)
    ensures r.Keys == {AdvertisingManagerInterface}
    ensures "Type" in r[AdvertisingManagerInterface]
    ensures r[AdvertisingManagerInterface] == Properties(a)
  {
    map[AdvertisingManagerInterface := Properties(a)]
  }

  /** `get_path`: the descriptor's own path unless a positive id asks for another one. */
  function GetPath(a: Advertisement, advId: int): (r: string)
    ensures advId <= 0 ==> r == a.path
    ensures advId > 0 ==> |r| > |PathBase| && r[..|PathBase|] == PathBase
    ensures advId > 0 ==> Text.AllDigits(r[|PathBase|..])
    ensures advId > 0 ==> r[|PathBase|] != '0'
    ensures advId > 0 ==> Decimal.DecimalValue(r[|PathBase|..]) == advId
  {
    if !(advId > 0) then a.path
    else
      Decimal.DecimalRoundTrip(advId);
      PathBase + Decimal.NatToDecimal(advId)
  }

  datatype GetAllResult = Found(properties: Props) | InvalidArgs

  /** `GetAll` on the D-Bus properties interface: only the advertisement interface is answered. */
  function GetAll(a: Advertisement, iface: string): (r: GetAllResult)
    ensures r.InvalidArgs? <==> iface != AdvertisementInterface
    ensures r.Found? ==> r.properties == GetProperties(a)[AdvertisingManagerInterface]
  {
    if iface != AdvertisementInterface then InvalidArgs
    else Found(GetProperties(a)[AdvertisingManagerInterface])
  }

  /** With the constructor's defaults, exactly `Type`, `Discoverable` and (when named) `LocalName` are emitted. */
  lemma DefaultsEmit(index: int, adType: string, deviceName: Option<string>)
    ensures Properties(New(index, adType, deviceName)).Keys ==
            {"Type", "Discoverable"} + (if deviceName.Some? then {"LocalName"} else {})
  {
    var p := Properties(New(index, adType, deviceName));
    forall k | k in PropertyNames
      ensures k in p <==> k in {"Type", "Discoverable"} + (if deviceName.Some? then {"LocalName"} else {})
    {
    }
  }

  /** Two positive ids never share an advertisement path. */
  lemma GetPathInjective(a: Advertisement, b: Advertisement, x: int, y: int)
    requires x > 0 && y > 0
    requires GetPath(a, x) == GetPath(b, y)
    ensures x == y
  {
  }

  /** The default path of the descriptor built with a positive index is what `get_path` gives for that id. */
  lemma DefaultPathAgrees(index: int, adType: string, deviceName: Option<string>)
    requires index > 0
    ensures GetPath(New(index, adType, deviceName), 0) == GetPath(New(index, adType, deviceName), index)
  {
  }
}
