/**
 * The booking landing page: one card per device type that has devices, with the number
 * of devices of that type that are online.
 */
module BookPage {
  import opened Wrappers
  import opened Text
  import opened MockData

  /** A card. The price is kept as a number; its rendering as `₹…/hr` is not modelled. */
  datatype DeviceInfo = DeviceInfo(
    id: string,
    name: string,
    specs: seq<string>,
    pricePerHour: real,
    image: string,
    color: string,
    available: nat,
    total: nat)

  /** `['PC', 'PS5', 'XBOX']` */
  const DeviceTypes: seq<DeviceType> := [PC, PS5, XBOX]

  /** `devices.filter(d => d.type === type)` */
  function OfType(devices: seq<Device>, t: DeviceType): (r: seq<Device>)
    ensures |r| <= |devices|
    ensures forall d :: d in r <==> d in devices && d.deviceType == t
    ensures forall d :: multiset(r)[d] == if d.deviceType == t then multiset(devices)[d] else 0
    decreases |devices|
  {
    if devices == [] then []
    else
      assert devices == [devices[0]] + devices[1..];
      (if devices[0].deviceType == t then [devices[0]] else []) + OfType(devices[1..], t)
  }

  /** Every device is of exactly one of the three types, so the three `total` figures add
      up to the number of devices. */
  lemma {:induction false} TypesPartitionDevices(devices: seq<Device>)
    ensures |OfType(devices, PC)| + |OfType(devices, PS5)| + |OfType(devices, XBOX)| == |devices|
    decreases |devices|
  {
    if devices != [] {
      TypesPartitionDevices(devices[1..]);
    }
  }

  /** The first device of a type is the first device of that type in the list. */
  lemma {:induction false} OfTypeFirst(devices: seq<Device>, t: DeviceType, k: nat)
    requires k < |devices| && devices[k].deviceType == t
    requires forall j :: 0 <= j < k ==> devices[j].deviceType != t
    ensures |OfType(devices, t)| > 0 && OfType(devices, t)[0] == devices[k]
    decreases k
  {
    if k > 0 {
      OfTypeFirst(devices[1..], t, k - 1);
      assert OfType(devices, t) == [] + OfType(devices[1..], t);
    } else {
      assert OfType(devices, t) == [devices[0]] + OfType(devices[1..], t);
    }
  }

  /** `….filter(d => d.status === 'Online').length` */
  function OnlineCount(devices: seq<Device>): (n: nat)
    ensures n <= |devices|
    ensures n == 0 <==> forall d :: d in devices ==> d.status != Online
    ensures n == multiset(Statuses(devices))[Online]
    decreases |devices|
  {
    if devices == [] then 0
    else
      assert Statuses(devices) == [devices[0].status] + Statuses(devices[1..]);
      (if devices[0].status == Online then 1 else 0) + OnlineCount(devices[1..])
  }

  function TypeImage(t: DeviceType): string {
    match t
    case PC => "🖥️"
    case PS5 => "🎮"
    case XBOX => "🕹️"
  }

  function TypeColor(t: DeviceType): string {
    match t
    case PC => "from-cyan-500 to-blue-500"
    case PS5 => "from-blue-600 to-indigo-600"
    case XBOX => "from-green-500 to-emerald-600"
  }

  /** Each device type has its own icon and its own colour. */
  lemma TypeStylesDistinct(s: DeviceType, t: DeviceType)
    ensures TypeImage(s) == TypeImage(t) <==> s == t
    ensures TypeColor(s) == TypeColor(t) <==> s == t
  {
  }

  /** `type.toLowerCase()` */
  function TypeId(t: DeviceType): (id: string)
    ensures id == match t case PC => "pc" case PS5 => "ps5" case XBOX => "xbox"
  {
    LowerAsciiString(DeviceTypeName(t))
  }

  /** `name.split('#')[0].trim()` */
  function CardName(name: string): string {
    Trim(Split(name, "#")[0])
  }

  /** getDeviceInfo: None when no device has the type; otherwise the card built from the
      first device of the type, with the online and total counts of the type. */
  function GetDeviceInfo(devices: seq<Device>, t: DeviceType): (info: Option<DeviceInfo>)
    ensures info.None? <==> forall d :: d in devices ==> d.deviceType != t
    ensures info.Some? ==>
      info.value.id == TypeId(t) && 1 <= info.value.total &&
      info.value.available <= info.value.total &&
      info.value.total == |OfType(devices, t)| &&
      info.value.available == OnlineCount(OfType(devices, t))
    ensures info.Some? ==>
      var base := OfType(devices, t)[0];
      info.value.name == CardName(base.name) && info.value.specs == Split(base.specs, ", ") &&
      info.value.pricePerHour == base.pricePerHour &&
      info.value.image == TypeImage(t) && info.value.color == TypeColor(t)
  {
    var typeDevices := OfType(devices, t);
    if |typeDevices| == 0 then
      None
    else
      var baseDevice := typeDevices[0];
      assert baseDevice in devices;
      Some(DeviceInfo(
        TypeId(t),
        CardName(baseDevice.name),
        Split(baseDevice.specs, ", "),
        baseDevice.pricePerHour,
        TypeImage(t),
        TypeColor(t),
        OnlineCount(typeDevices),
        |typeDevices|))
  }

  /** The card's name is the first device's name before its first `#`, trimmed. */
  lemma CardNameBeforeHash(prefix: string, rest: string)
    requires '#' !in prefix
    ensures CardName(prefix + "#" + rest) == Trim(prefix)
  {
    assert prefix + "#" + rest == prefix + ['#'] + rest;
    SplitAtFirst(prefix, '#', rest);
  }

  /** The card's specs are the first device's specs cut at each `, `: joining them back
      gives the specs string. */
  lemma CardSpecsRejoin(devices: seq<Device>, t: DeviceType)
    requires GetDeviceInfo(devices, t).Some?
    ensures Join(GetDeviceInfo(devices, t).value.specs, ", ") == OfType(devices, t)[0].specs
  {
    JoinSplit(OfType(devices, t)[0].specs, ", ");
  }

  /** Every type with no device online gives a card with nothing available. */
  lemma NothingOnlineIsFull(devices: seq<Device>, t: DeviceType)
    requires GetDeviceInfo(devices, t).Some?
    requires forall d :: d in devices && d.deviceType == t ==> d.status != Online
    ensures GetDeviceInfo(devices, t).value.available == 0
  {
  }

  /** `deviceTypes.map(getDeviceInfo).filter(d => d !== null)` */
  function DisplayedDevices(devices: seq<Device>): (cards: seq<DeviceInfo>)
    ensures |cards| <= |DeviceTypes|
    ensures forall c :: c in cards ==> 1 <= c.total && c.available <= c.total
  {
    var infos := InfosOf(devices, DeviceTypes);
    PresentCardsBounded(infos);
    KeepPresent(infos)
  }

  /** Kept cards keep the bounds that every present card has. */
  lemma PresentCardsBounded(infos: seq<Option<DeviceInfo>>)
    requires forall k :: 0 <= k < |infos| && infos[k].Some? ==>
      1 <= infos[k].value.total && infos[k].value.available <= infos[k].value.total
    ensures forall c :: c in KeepPresent(infos) ==> 1 <= c.total && c.available <= c.total
  {
    forall c | c in KeepPresent(infos) ensures 1 <= c.total && c.available <= c.total {
      var k :| 0 <= k < |infos| && infos[k] == Some(c);
    }
  }

  /** `types.map(getDeviceInfo)` */
  function InfosOf(devices: seq<Device>, types: seq<DeviceType>): (r: seq<Option<DeviceInfo>>)
    ensures |r| == |types|
    ensures forall k :: 0 <= k < |types| ==> r[k] == GetDeviceInfo(devices, types[k])
    decreases |types|
  {
    if types == [] then [] else [GetDeviceInfo(devices, types[0])] + InfosOf(devices, types[1..])
  }

  /** `.filter(d => d !== null)` */
  function KeepPresent(infos: seq<Option<DeviceInfo>>): (r: seq<DeviceInfo>)
    ensures |r| <= |infos|
    ensures forall c :: c in r <==> Some(c) in infos
    decreases |infos|
  {
    if infos == [] then []
    else OptionList(infos[0]) + KeepPresent(infos[1..])
  }

  /** The cards come in PC, PS5, XBOX order, one for each type that has devices. */
  lemma DisplayedDevicesInTypeOrder(devices: seq<Device>)
    ensures DisplayedDevices(devices) ==
      OptionList(GetDeviceInfo(devices, PC)) + OptionList(GetDeviceInfo(devices, PS5))
      + OptionList(GetDeviceInfo(devices, XBOX))
  {
    InfosOfThree(devices, DeviceTypes);
    var a, b, c := GetDeviceInfo(devices, PC), GetDeviceInfo(devices, PS5), GetDeviceInfo(devices, XBOX);
    KeepPresentThree(a, b, c);
  }

  lemma InfosOfThree(devices: seq<Device>, types: seq<DeviceType>)
    requires |types| == 3
    ensures InfosOf(devices, types) ==
      [GetDeviceInfo(devices, types[0]), GetDeviceInfo(devices, types[1]), GetDeviceInfo(devices, types[2])]
  {
    var r := InfosOf(devices, types);
    assert r == [r[0], r[1], r[2]];
  }

  lemma KeepPresentThree(a: Option<DeviceInfo>, b: Option<DeviceInfo>, c: Option<DeviceInfo>)
    ensures KeepPresent([a, b, c]) == OptionList(a) + OptionList(b) + OptionList(c)
  {
    var l3 := KeepPresent([c]);
    assert [c][1..] == [];
    assert l3 == OptionList(c);
    var l2 := KeepPresent([b, c]);
    assert [b, c][1..] == [c];
    assert l2 == OptionList(b) + l3;
    assert [a, b, c][1..] == [b, c];
    assert KeepPresent([a, b, c]) == OptionList(a) + l2;
  }

  /** The card list for one type: empty when the type has no devices. */
  function OptionList(info: Option<DeviceInfo>): (r: seq<DeviceInfo>)
    ensures info.Some? ==> r == [info.value]
    ensures info.None? ==> r == []
  {
    if info.Some? then [info.value] else []
  }

  /** A type has a card exactly when some device has that type. */
  lemma CardForEveryPresentType(devices: seq<Device>, t: DeviceType)
    ensures (exists c :: c in DisplayedDevices(devices) && c.id == TypeId(t)) <==>
      exists d :: d in devices && d.deviceType == t
  {
    if exists d :: d in devices && d.deviceType == t {
      var info := GetDeviceInfo(devices, t);
      CardOfType(devices, t);
      assert info.value in DisplayedDevices(devices) && info.value.id == TypeId(t);
    } else {
      NoCardForMissingType(devices, t);
    }
  }

  /** A type without devices has no card. */
  lemma NoCardForMissingType(devices: seq<Device>, t: DeviceType)
    requires GetDeviceInfo(devices, t).None?
    ensures forall c :: c in DisplayedDevices(devices) ==> c.id != TypeId(t)
  {
    forall c | c in DisplayedDevices(devices) ensures c.id != TypeId(t) {
      var u := CardSource(devices, c);
      TypeIdInjective(u, t);
    }
  }

  /** Different types have different card ids. */
  lemma TypeIdInjective(u: DeviceType, t: DeviceType)
    ensures TypeId(u) == TypeId(t) <==> u == t
  {
  }

  /** The card of a type that has devices is among the displayed cards. */
  lemma CardOfType(devices: seq<Device>, t: DeviceType)
    requires GetDeviceInfo(devices, t).Some?
    ensures GetDeviceInfo(devices, t).value in DisplayedDevices(devices)
  {
    DisplayedDevicesInTypeOrder(devices);
  }

  /** Every displayed card is the card of some type. */
  lemma CardSource(devices: seq<Device>, x: DeviceInfo) returns (u: DeviceType)
    requires x in DisplayedDevices(devices)
    ensures GetDeviceInfo(devices, u) == Some(x)
  {
    DisplayedDevicesInTypeOrder(devices);
    InOneOfThree(x, GetDeviceInfo(devices, PC), GetDeviceInfo(devices, PS5), GetDeviceInfo(devices, XBOX));
    if GetDeviceInfo(devices, PC) == Some(x) {
      u := PC;
    } else if GetDeviceInfo(devices, PS5) == Some(x) {
      u := PS5;
    } else {
      u := XBOX;
    }
  }

  lemma InOneOfThree(x: DeviceInfo, a: Option<DeviceInfo>, b: Option<DeviceInfo>, c: Option<DeviceInfo>)
    requires x in OptionList(a) + OptionList(b) + OptionList(c)
    ensures a == Some(x) || b == Some(x) || c == Some(x)
  {
  }

  /** `device.available > 0 ? `/book/${device.id}` : '#'` */
  function SelectLink(info: DeviceInfo): (href: string)
    ensures href != "#" <==> info.available > 0
    ensures info.available > 0 ==> href == "/book/" + info.id
  {
    if info.available > 0 then "/book/" + info.id else "#"
  }

  /** The button is disabled exactly when `available === 0`; its label is `Select` or `Full`. */
  function SelectButton(info: DeviceInfo): (button: (bool, string))
    ensures button.0 <==> SelectLink(info) != "#"
    ensures button.1 == (if button.0 then "Select" else "Full")
  {
    var disabled := info.available == 0;
    (!disabled, if info.available > 0 then "Select" else "Full")
  }
}
