/**
 * The admin overview page: revenue, active sessions, today's bookings and the activity
 * feed, all computed from the store's lists. The current ISO time is a parameter.
 */
module AdminOverview {
  import opened Text
  import opened MockData

  /** `bookings.reduce((acc, curr) => acc + curr.price, 0)`, on exact numbers. */
  function TotalRevenue(bookings: seq<Booking>): real
    decreases |bookings|
  {
    if bookings == [] then 0.0 else TotalRevenue(bookings[..|bookings| - 1]) + bookings[|bookings| - 1].price
  }

  /** Revenue adds up over a concatenation. */
  lemma {:induction false} RevenueConcat(a: seq<Booking>, b: seq<Booking>)
    ensures TotalRevenue(a + b) == TotalRevenue(a) + TotalRevenue(b)
    decreases |b|
  {
    if b == [] {
      assert a + b == a;
    } else {
      var n := |b| - 1;
      assert (a + b)[..|a + b| - 1] == a + b[..n];
      RevenueConcat(a, b[..n]);
    }
  }

  /** Non-negative prices give a non-negative revenue. */
  lemma {:induction false} RevenueNonNegative(bookings: seq<Booking>)
    requires forall k :: 0 <= k < |bookings| ==> bookings[k].price >= 0.0
    ensures TotalRevenue(bookings) >= 0.0
    decreases |bookings|
  {
    if bookings != [] {
      RevenueNonNegative(bookings[..|bookings| - 1]);
    }
  }

  /** A booking added by addBooking adds its price to the revenue. */
  lemma RevenueAfterAdd(data: BookingData, now: nat, createdAt: string, bookings: seq<Booking>)
    ensures TotalRevenue([NewBooking(data, now, createdAt)] + bookings) == data.price + TotalRevenue(bookings)
  {
    var b := NewBooking(data, now, createdAt);
    RevenueConcat([b], bookings);
    assert [b][..0] == [];
  }

  /** Cancelling does not lower the revenue: cancelled bookings are still counted. */
  lemma RevenueAfterCancel(bookings: seq<Booking>, id: string)
    ensures TotalRevenue(CancelIn(bookings, id)) == TotalRevenue(bookings)
  {
    SamePricesSameRevenue(CancelIn(bookings, id), bookings);
  }

  /** Revenue depends only on the prices, position by position. */
  lemma {:induction false} SamePricesSameRevenue(a: seq<Booking>, b: seq<Booking>)
    requires |a| == |b|
    requires forall k :: 0 <= k < |a| ==> a[k].price == b[k].price
    ensures TotalRevenue(a) == TotalRevenue(b)
    decreases |a|
  {
    if a != [] {
      var n := |a| - 1;
      SamePricesSameRevenue(a[..n], b[..n]);
    }
  }

  /** `devices.filter(d => d.status === 'Occupied').length` */
  function ActiveSessions(devices: seq<Device>): (n: nat)
    ensures n <= |devices|
    ensures n == |devices| <==> forall k :: 0 <= k < |devices| ==> devices[k].status == Occupied
    ensures n == multiset(Statuses(devices))[Occupied]
    decreases |devices|
  {
    if devices == [] then 0
    else
      assert Statuses(devices) == [devices[0].status] + Statuses(devices[1..]);
      (if devices[0].status == Occupied then 1 else 0) + ActiveSessions(devices[1..])
  }

  /** `devices.length` */
  function TotalDevices(devices: seq<Device>): nat {
    |devices|
  }

  /** Every device has exactly one of the four statuses: the `Active Sessions` figure and
      the counts of the other three statuses add up to `totalDevices`. */
  lemma StatusCountsAddUp(devices: seq<Device>)
    ensures var m := multiset(Statuses(devices));
      ActiveSessions(devices) + m[Online] + m[Maintenance] + m[Offline] == TotalDevices(devices)
  {
    StatusMultisetAddsUp(Statuses(devices));
  }

  /** The four status counts of a list of statuses add up to its length. */
  lemma {:induction false} StatusMultisetAddsUp(ss: seq<DeviceStatus>)
    ensures var m := multiset(ss);
      m[Occupied] + m[Online] + m[Maintenance] + m[Offline] == |ss|
  {
    if ss != [] {
      StatusMultisetAddsUp(ss[1..]);
      assert ss == [ss[0]] + ss[1..];
      var m, rest := multiset(ss), multiset(ss[1..]);
      assert m == multiset{ss[0]} + rest;
      assert m[Occupied] == rest[Occupied] + (if ss[0] == Occupied then 1 else 0);
      assert m[Online] == rest[Online] + (if ss[0] == Online then 1 else 0);
      assert m[Maintenance] == rest[Maintenance] + (if ss[0] == Maintenance then 1 else 0);
      assert m[Offline] == rest[Offline] + (if ss[0] == Offline then 1 else 0);
    }
  }

  /** `new Date().toISOString().split('T')[0]`, given the ISO string. */
  function Today(isoNow: string): string {
    Split(isoNow, "T")[0]
  }

  /** The day of an ISO time `date` + `T` + `time` is its date part. */
  lemma TodayOfIso(date: string, time: string)
    requires 'T' !in date
    ensures Today(date + "T" + time) == date
  {
    assert date + "T" + time == date + ['T'] + time;
    SplitAtFirst(date, 'T', time);
  }

  /** The date of each booking, in list order. */
  function Dates(bookings: seq<Booking>): (r: seq<string>)
    ensures |r| == |bookings| && forall k :: 0 <= k < |bookings| ==> r[k] == bookings[k].date
  {
    seq(|bookings|, k requires 0 <= k < |bookings| => bookings[k].date)
  }

  /** `bookings.filter(b => b.date === today)` */
  function BookingsOn(bookings: seq<Booking>, day: string): (r: seq<Booking>)
    ensures |r| <= |bookings|
    ensures forall b :: b in r <==> b in bookings && b.date == day
    ensures forall b :: multiset(r)[b] == if b.date == day then multiset(bookings)[b] else 0
    ensures |r| == multiset(Dates(bookings))[day]
    decreases |bookings|
  {
    if bookings == [] then []
    else
      assert bookings == [bookings[0]] + bookings[1..];
      assert Dates(bookings) == [bookings[0].date] + Dates(bookings[1..]);
      (if bookings[0].date == day then [bookings[0]] else []) + BookingsOn(bookings[1..], day)
  }

  /** `todaysBookings`: how many bookings have exactly the given date string. */
  function TodaysBookings(bookings: seq<Booking>, today: string): (n: nat)
    ensures n <= |bookings|
    ensures n == 0 <==> forall b :: b in bookings ==> b.date != today
    ensures n == multiset(Dates(bookings))[today]
  {
    var matching := BookingsOn(bookings, today);
    assert matching != [] ==> matching[0] in matching;
    |matching|
  }

  /** `[...arr].reverse()`, on a copy: the argument is a value and stays as it is. */
  function Reverse(bookings: seq<Booking>): (r: seq<Booking>)
    ensures |r| == |bookings|
    ensures forall k :: 0 <= k < |r| ==> r[k] == bookings[|bookings| - 1 - k]
    decreases |bookings|
  {
    if bookings == [] then [] else [bookings[|bookings| - 1]] + Reverse(bookings[..|bookings| - 1])
  }

  function Min(a: nat, b: nat): nat {
    if a <= b then a else b
  }

  const FeedLength: nat := 5

  /** `recentActivity` as written: `[...bookings].reverse().slice(0, 5)`, the last five
      bookings of the list, from the end backwards. */
  function RecentActivity(bookings: seq<Booking>): (feed: seq<Booking>)
    ensures |feed| == Min(FeedLength, |bookings|)
    ensures forall k :: 0 <= k < |feed| ==> feed[k] == bookings[|bookings| - 1 - k]
  {
    Reverse(bookings)[..Min(FeedLength, |bookings|)]
  }

  /** addBooking puts a new booking at the front, so once there are five bookings the
      feed as written ignores every new booking. */
  lemma RecentActivityIgnoresNewBooking(data: BookingData, now: nat, createdAt: string, bookings: seq<Booking>)
    requires |bookings| >= FeedLength
    ensures RecentActivity([NewBooking(data, now, createdAt)] + bookings) == RecentActivity(bookings)
  {
    var all := [NewBooking(data, now, createdAt)] + bookings;
    var a, b := RecentActivity(all), RecentActivity(bookings);
    forall k | 0 <= k < |a| ensures a[k] == b[k] {
      assert all[|all| - 1 - k] == bookings[|bookings| - 1 - k];
    }
  }

  /** A store with five older bookings and one added afterwards: the added booking is not
      in the feed. */
  lemma NewBookingMissingFromFeed(data: BookingData, now: nat, createdAt: string, older: seq<Booking>)
    requires |older| == FeedLength
    requires forall k :: 0 <= k < |older| ==> older[k].id != GeneratedId("b", now)
    ensures NewBooking(data, now, createdAt) !in RecentActivity([NewBooking(data, now, createdAt)] + older)
  {
    RecentActivityIgnoresNewBooking(data, now, createdAt, older);
    var feed := RecentActivity(older);
    forall k | 0 <= k < |feed| ensures feed[k].id != GeneratedId("b", now) {
      assert feed[k] == older[|older| - 1 - k];
    }
  }

  /** The feed as evidently intended: the bookings list is newest first, so the five most
      recent bookings are its first five. */
  function RecentActivityNewestFirst(bookings: seq<Booking>): (feed: seq<Booking>)
    ensures |feed| == Min(FeedLength, |bookings|)
    ensures forall k :: 0 <= k < |feed| ==> feed[k] == bookings[k]
  {
    bookings[..Min(FeedLength, |bookings|)]
  }

  /** With the intended feed, a booking just added is shown first and the older ones move
      down by one. */
  lemma NewestFirstShowsNewBooking(data: BookingData, now: nat, createdAt: string, bookings: seq<Booking>)
    ensures var feed := RecentActivityNewestFirst([NewBooking(data, now, createdAt)] + bookings);
      feed[0] == NewBooking(data, now, createdAt) &&
      feed[1..] == RecentActivityNewestFirst(bookings)[..|feed| - 1]
  {
    var all := [NewBooking(data, now, createdAt)] + bookings;
    var feed := RecentActivityNewestFirst(all);
    var old5 := RecentActivityNewestFirst(bookings);
    assert |feed| - 1 <= |old5|;
    forall k | 0 <= k < |feed| - 1 ensures feed[1..][k] == old5[..|feed| - 1][k] {
      assert feed[k + 1] == all[k + 1] == bookings[k];
    }
  }
}
