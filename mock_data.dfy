/**
 * The in-memory booking store behind the whole front end: three lists (devices, games,
 * bookings) held as React state and replaced by five update operations.
 * The clock readings the operations take (`Date.now()`, `new Date().toISOString()`)
 * are parameters.
 */
module MockData {
  import opened Text

  datatype DeviceType = PC | PS5 | XBOX
  datatype DeviceStatus = Online | Occupied | Maintenance | Offline
  datatype BookingStatus = Upcoming | Completed | Cancelled

  datatype Device = Device(
    id: string,
    name: string,
    deviceType: DeviceType,
    status: DeviceStatus,
    specs: string,
    pricePerHour: real)

  datatype Game = Game(
    id: string,
    title: string,
    image: string,
    genre: string,
    platforms: seq<DeviceType>,
    description: string)

  datatype Booking = Booking(
    id: string,
    userId: string,
    deviceId: string,
    gameId: string,
    gameTitle: string,
    gameImage: string,
    deviceName: string,
    date: string,
    time: string,
    duration: string,
    price: real,
    status: BookingStatus,
    createdAt: string)

  /** The string literal of each device type, as the union type spells it. */
  function DeviceTypeName(t: DeviceType): string {
    match t
    case PC => "PC"
    case PS5 => "PS5"
    case XBOX => "XBOX"
  }

  /** The status of each device, in list order. */
  function Statuses(devices: seq<Device>): (r: seq<DeviceStatus>)
    ensures |r| == |devices| && forall k :: 0 <= k < |devices| ==> r[k] == devices[k].status
  {
    seq(|devices|, k requires 0 <= k < |devices| => devices[k].status)
  }

  /** The string literal of each device status. */
  function DeviceStatusName(s: DeviceStatus): string {
    match s
    case Online => "Online"
    case Occupied => "Occupied"
    case Maintenance => "Maintenance"
    case Offline => "Offline"
  }

  /** What a caller of addBooking supplies: a booking without id, creation time and status. */
  datatype BookingData = BookingData(
    userId: string,
    deviceId: string,
    gameId: string,
    gameTitle: string,
    gameImage: string,
    deviceName: string,
    date: string,
    time: string,
    duration: string,
    price: real)

  /** What a caller of addDevice supplies: a device without id. */
  datatype DeviceData = DeviceData(
    name: string,
    deviceType: DeviceType,
    status: DeviceStatus,
    specs: string,
    pricePerHour: real)

  /** What a caller of addGame supplies: a game without id. */
  datatype GameData = GameData(
    title: string,
    image: string,
    genre: string,
    platforms: seq<DeviceType>,
    description: string)

  // ---------------------------------------------------------------------
  // Initial data
  // ---------------------------------------------------------------------

  const InitialDevices: seq<Device> := [
    Device("pc-01", "High-End PC #01", PC, Online, "RTX 4090, i9-13900K", 150.0),
    Device("pc-02", "High-End PC #02", PC, Occupied, "RTX 4090, i9-13900K", 150.0),
    Device("pc-03", "Standard PC #01", PC, Online, "RTX 3060, i7-12700", 100.0),
    Device("ps5-01", "PlayStation 5 #01", PS5, Online, "4K HDR, 120Hz", 120.0),
    Device("ps5-02", "PlayStation 5 #02", PS5, Maintenance, "4K HDR, 120Hz", 120.0),
    Device("xbox-01", "Xbox Series X #01", XBOX, Online, "4K HDR, 120Hz", 120.0)
  ]

  const InitialGames: seq<Game> := [
    Game("g1", "Cyberpunk 2077", "🌃", "RPG", [PC, PS5, XBOX], "Open-world action-adventure."),
    Game("g2", "Valorant", "🔫", "FPS", [PC], "5v5 tactical shooter."),
    Game("g3", "Marvel's Spider-Man 2", "🕸️", "Action", [PS5], "Web-slinging action."),
    Game("g4", "Halo Infinite", "⚔️", "FPS", [XBOX, PC], "Sci-fi shooter."),
    Game("g5", "Startfield", "🚀", "RPG", [XBOX, PC], "Space exploration."),
    Game("g6", "God of War Ragnarök", "🪓", "Action", [PS5], "Mythological action."),
    Game("g7", "League of Legends", "🏆", "MOBA", [PC], "Strategic team battle."),
    Game("g8", "FIFA 24", "⚽", "Sports", [PC, PS5, XBOX], "Football simulation.")
  ]

  const InitialBookings: seq<Booking> := [
    Booking("b1", "current-user", "pc-02", "g1", "Cyberpunk 2077", "🌃", "High-End PC #02",
            "2024-02-20", "14:00", "2h", 300.0, Upcoming, "2024-02-15T10:00:00.000Z"),
    Booking("b2", "current-user", "ps5-01", "g3", "Marvel's Spider-Man 2", "🕸️", "PlayStation 5 #01",
            "2024-02-10", "18:00", "1h", 120.0, Completed, "2024-02-08T15:30:00.000Z")
  ]

  // ---------------------------------------------------------------------
  // Generated records
  // ---------------------------------------------------------------------

  /** `b-${Date.now()}`, `dev-${Date.now()}`, `g-${Date.now()}` */
  function GeneratedId(prefix: string, now: nat): string {
    prefix + "-" + NatToDecimal(now)
  }

  /** Ids generated from different clock readings differ; two operations in the same
      millisecond get the same id, so ids are not unique in general. */
  lemma GeneratedIdInjective(prefix: string, a: nat, b: nat)
    ensures GeneratedId(prefix, a) == GeneratedId(prefix, b) <==> a == b
  {
    if GeneratedId(prefix, a) == GeneratedId(prefix, b) {
      var n := |prefix| + 1;
      assert NatToDecimal(a) == GeneratedId(prefix, a)[n..];
      assert NatToDecimal(b) == GeneratedId(prefix, b)[n..];
      NatToDecimalInjective(a, b);
    }
  }

  /** The booking addBooking builds: the spread data plus id, creation time and status. */
  function NewBooking(data: BookingData, now: nat, createdAt: string): Booking {
    Booking(GeneratedId("b", now), data.userId, data.deviceId, data.gameId, data.gameTitle,
            data.gameImage, data.deviceName, data.date, data.time, data.duration, data.price,
            Upcoming, createdAt)
  }

  /** The part of a booking a caller supplies. */
  function DataOf(b: Booking): BookingData {
    BookingData(b.userId, b.deviceId, b.gameId, b.gameTitle, b.gameImage, b.deviceName,
                b.date, b.time, b.duration, b.price)
  }

  /** A new booking carries every supplied field unchanged, the generated id and `upcoming`. */
  lemma NewBookingKeepsData(data: BookingData, now: nat, createdAt: string)
    ensures var b := NewBooking(data, now, createdAt);
      DataOf(b) == data && b.id == GeneratedId("b", now) && b.status == Upcoming && b.createdAt == createdAt
  {
  }

  function NewDevice(data: DeviceData, now: nat): Device {
    Device(GeneratedId("dev", now), data.name, data.deviceType, data.status, data.specs, data.pricePerHour)
  }

  function NewGame(data: GameData, now: nat): Game {
    Game(GeneratedId("g", now), data.title, data.image, data.genre, data.platforms, data.description)
  }

  /** A new device carries every supplied field unchanged and a `dev-` id. */
  lemma NewDeviceKeepsData(data: DeviceData, now: nat)
    ensures var d := NewDevice(data, now);
      DeviceData(d.name, d.deviceType, d.status, d.specs, d.pricePerHour) == data
      && d.id == GeneratedId("dev", now)
  {
  }

  /** A new game carries every supplied field unchanged and a `g-` id. */
  lemma NewGameKeepsData(data: GameData, now: nat)
    ensures var g := NewGame(data, now);
      GameData(g.title, g.image, g.genre, g.platforms, g.description) == data
      && g.id == GeneratedId("g", now)
  {
  }

  /** The initial devices have distinct ids. */
  lemma InitialDeviceIdsDistinct()
    ensures forall i, j :: 0 <= i < j < |InitialDevices| ==> InitialDevices[i].id != InitialDevices[j].id
  {
  }

  /** The initial games have distinct ids, and every one runs on at least one platform. */
  lemma InitialGamesWellFormed()
    ensures forall i, j :: 0 <= i < j < |InitialGames| ==> InitialGames[i].id != InitialGames[j].id
    ensures forall g :: g in InitialGames ==> |g.platforms| > 0
  {
  }

  // ---------------------------------------------------------------------
  // Map-by-id updates
  // ---------------------------------------------------------------------

  /** `prev.map(b => b.id === id ? { ...b, status: 'cancelled' } : b)` */
  function CancelIn(bookings: seq<Booking>, id: string): (r: seq<Booking>)
    ensures |r| == |bookings|
    ensures forall k :: 0 <= k < |r| ==>
      r[k] == if bookings[k].id == id then bookings[k].(status := Cancelled) else bookings[k]
    decreases |bookings|
  {
    if bookings == [] then []
    else
      [if bookings[0].id == id then bookings[0].(status := Cancelled) else bookings[0]]
      + CancelIn(bookings[1..], id)
  }

  /** `prev.map(d => d.id === id ? { ...d, status } : d)` */
  function SetStatusIn(devices: seq<Device>, id: string, status: DeviceStatus): (r: seq<Device>)
    ensures |r| == |devices|
    ensures forall k :: 0 <= k < |r| ==>
      r[k] == if devices[k].id == id then devices[k].(status := status) else devices[k]
    decreases |devices|
  {
    if devices == [] then []
    else
      [if devices[0].id == id then devices[0].(status := status) else devices[0]]
      + SetStatusIn(devices[1..], id, status)
  }

  /** Cancelling twice is cancelling once. */
  lemma CancelIdempotent(bookings: seq<Booking>, id: string)
    ensures CancelIn(CancelIn(bookings, id), id) == CancelIn(bookings, id)
  {
  }

  /** Cancelling an id that no booking has changes nothing. */
  lemma CancelAbsentIsNoop(bookings: seq<Booking>, id: string)
    requires forall k :: 0 <= k < |bookings| ==> bookings[k].id != id
    ensures CancelIn(bookings, id) == bookings
  {
  }

  /** Cancelling does not look at the current status: a completed booking becomes cancelled. */
  lemma CancelOverridesCompleted(bookings: seq<Booking>, id: string, k: nat)
    requires k < |bookings| && bookings[k].id == id && bookings[k].status == Completed
    ensures CancelIn(bookings, id)[k].status == Cancelled
    ensures DataOf(CancelIn(bookings, id)[k]) == DataOf(bookings[k])
  {
  }

  /** Setting a status twice keeps only the second. */
  lemma SetStatusLastWins(devices: seq<Device>, id: string, s: DeviceStatus, t: DeviceStatus)
    ensures SetStatusIn(SetStatusIn(devices, id, s), id, t) == SetStatusIn(devices, id, t)
  {
  }

  /** Setting a device's status to the status it already has changes nothing. */
  lemma SetStatusSameIsNoop(devices: seq<Device>, id: string, s: DeviceStatus)
    requires forall k :: 0 <= k < |devices| && devices[k].id == id ==> devices[k].status == s
    ensures SetStatusIn(devices, id, s) == devices
  {
  }

  // ---------------------------------------------------------------------
  // The store
  // ---------------------------------------------------------------------

  /** The provider's three state lists; each method replaces exactly one of them. */
  class Store {
    var devices: seq<Device>
    var games: seq<Game>
    var bookings: seq<Booking>

    constructor ()
      ensures devices == InitialDevices && games == InitialGames && bookings == InitialBookings
    {
      devices := InitialDevices;
      games := InitialGames;
      bookings := InitialBookings;
    }

    /** addBooking: the new booking is put in front of the old list. */
    method AddBooking(data: BookingData, now: nat, createdAt: string)
      modifies this
      ensures bookings == [NewBooking(data, now, createdAt)] + old(bookings)
      ensures |bookings| == |old(bookings)| + 1
      ensures bookings[0].status == Upcoming && DataOf(bookings[0]) == data
      ensures bookings[1..] == old(bookings)
      ensures devices == old(devices) && games == old(games)
    {
      var newBooking := NewBooking(data, now, createdAt);
      bookings := [newBooking] + bookings;
    }

    /** cancelBooking: same length and order, matching bookings become cancelled. */
    method CancelBooking(id: string)
      modifies this
      ensures bookings == CancelIn(old(bookings), id)
      ensures devices == old(devices) && games == old(games)
    {
      bookings := CancelIn(bookings, id);
    }

    /** updateDeviceStatus: same length and order, matching devices get the new status. */
    method UpdateDeviceStatus(id: string, status: DeviceStatus)
      modifies this
      ensures devices == SetStatusIn(old(devices), id, status)
      ensures games == old(games) && bookings == old(bookings)
    {
      devices := SetStatusIn(devices, id, status);
    }

    /** addDevice: the new device is put after the old list. */
    method AddDevice(data: DeviceData, now: nat)
      modifies this
      ensures devices == old(devices) + [NewDevice(data, now)]
      ensures devices[|devices| - 1].id == GeneratedId("dev", now)
      ensures games == old(games) && bookings == old(bookings)
    {
      devices := devices + [NewDevice(data, now)];
    }

    /** addGame: the new game is put after the old list. */
    method AddGame(data: GameData, now: nat)
      modifies this
      ensures games == old(games) + [NewGame(data, now)]
      ensures games[|games| - 1].id == GeneratedId("g", now)
      ensures devices == old(devices) && bookings == old(bookings)
    {
      games := games + [NewGame(data, now)];
    }
  }
}
