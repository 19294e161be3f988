/**
 * The dashboard's booking list: the bookings split into an upcoming and a history tab.
 */
module BookingList {
  import opened MockData

  /** `bookings.filter(b => b.status === 'upcoming')` */
  function Upcoming(bookings: seq<Booking>): (r: seq<Booking>)
    ensures |r| <= |bookings|
    ensures forall b :: b in r <==> b in bookings && b.status == BookingStatus.Upcoming
    decreases |bookings|
  {
    if bookings == [] then []
    else (if bookings[0].status == BookingStatus.Upcoming then [bookings[0]] else [])
         + Upcoming(bookings[1..])
  }

  /** `bookings.filter(b => b.status !== 'upcoming')` */
  function History(bookings: seq<Booking>): (r: seq<Booking>)
    ensures |r| <= |bookings|
    ensures forall b :: b in r <==> b in bookings && b.status != BookingStatus.Upcoming
    decreases |bookings|
  {
    if bookings == [] then []
    else (if bookings[0].status != BookingStatus.Upcoming then [bookings[0]] else [])
         + History(bookings[1..])
  }

  /** Both filters keep the original order: filtering a concatenation concatenates the
      filtered parts. */
  lemma {:induction false} UpcomingKeepsOrder(a: seq<Booking>, b: seq<Booking>)
    ensures Upcoming(a + b) == Upcoming(a) + Upcoming(b)
    decreases |a|
  {
    if a == [] {
      assert a + b == b;
    } else {
      var x := a + b;
      assert x[0] == a[0] && x[1..] == a[1..] + b;
      UpcomingKeepsOrder(a[1..], b);
      var head := if a[0].status == BookingStatus.Upcoming then [a[0]] else [];
      assert Upcoming(x) == head + Upcoming(a[1..] + b);
      assert Upcoming(a) == head + Upcoming(a[1..]);
      ConcatAssoc(head, Upcoming(a[1..]), Upcoming(b));
    }
  }

  lemma {:induction false} HistoryKeepsOrder(a: seq<Booking>, b: seq<Booking>)
    ensures History(a + b) == History(a) + History(b)
    decreases |a|
  {
    if a == [] {
      assert a + b == b;
    } else {
      var x := a + b;
      assert x[0] == a[0] && x[1..] == a[1..] + b;
      HistoryKeepsOrder(a[1..], b);
      var head := if a[0].status != BookingStatus.Upcoming then [a[0]] else [];
      assert History(x) == head + History(a[1..] + b);
      assert History(a) == head + History(a[1..]);
      ConcatAssoc(head, History(a[1..]), History(b));
    }
  }

  /** Regrouping a concatenation of three filtered parts, stated over plain sequences so
      that the filters are not unfolded again. */
  lemma ConcatAssoc(x: seq<Booking>, y: seq<Booking>, z: seq<Booking>)
    ensures x + (y + z) == (x + y) + z
  {
  }

  /** The two tabs partition the bookings: together they hold every booking exactly as
      often as the input does, and their lengths add up to the input's. */
  lemma {:induction false} TabsPartition(bookings: seq<Booking>)
    ensures multiset(Upcoming(bookings)) + multiset(History(bookings)) == multiset(bookings)
    ensures |Upcoming(bookings)| + |History(bookings)| == |bookings|
    decreases |bookings|
  {
    if bookings != [] {
      var b, rest := bookings[0], bookings[1..];
      TabsPartition(rest);
      assert bookings == [b] + rest;
      var up := b.status == BookingStatus.Upcoming;
      assert Upcoming(bookings) == (if up then [b] else []) + Upcoming(rest);
      assert History(bookings) == (if up then [] else [b]) + History(rest);
      PartitionStep(b, up, rest, Upcoming(rest), History(rest));
    }
  }

  /** One booking goes to exactly one tab, in front of the tabs of the rest. */
  lemma PartitionStep(b: Booking, up: bool, rest: seq<Booking>, u: seq<Booking>, h: seq<Booking>)
    requires multiset(u) + multiset(h) == multiset(rest)
    ensures multiset((if up then [b] else []) + u) + multiset((if up then [] else [b]) + h)
      == multiset([b] + rest)
  {
  }

  /** No booking is in both tabs. */
  lemma TabsDisjoint(bookings: seq<Booking>)
    ensures forall b :: !(b in Upcoming(bookings) && b in History(bookings))
  {
  }

  datatype Tab = UpcomingTab | HistoryTab

  /** `activeTab === 'upcoming' ? upcomingBookings : historyBookings` */
  function Displayed(bookings: seq<Booking>, tab: Tab): seq<Booking> {
    if tab == UpcomingTab then Upcoming(bookings) else History(bookings)
  }

  /** A booking is shown on exactly one of the two tabs: the upcoming tab when its status
      is `upcoming`, the history tab otherwise. */
  lemma DisplayedOnOneTab(bookings: seq<Booking>, b: Booking)
    requires b in bookings
    ensures b in Displayed(bookings, UpcomingTab) <==> b.status == BookingStatus.Upcoming
    ensures b in Displayed(bookings, HistoryTab) <==> b.status != BookingStatus.Upcoming
  {
  }

  /** The count in the upcoming tab's label, `upcomingBookings.length`. */
  function UpcomingLabelCount(bookings: seq<Booking>): (n: nat)
    ensures n <= |bookings|
    ensures n == |Displayed(bookings, UpcomingTab)|
  {
    |Upcoming(bookings)|
  }

  /** A booking just added by addBooking is shown first on the upcoming tab. */
  lemma NewBookingShownFirst(data: BookingData, now: nat, createdAt: string, bookings: seq<Booking>)
    ensures Upcoming([NewBooking(data, now, createdAt)] + bookings)
      == [NewBooking(data, now, createdAt)] + Upcoming(bookings)
  {
    UpcomingKeepsOrder([NewBooking(data, now, createdAt)], bookings);
  }

  /** After cancelBooking(id) no booking with that id is left on the upcoming tab. */
  lemma CancelledLeavesUpcoming(bookings: seq<Booking>, id: string)
    ensures forall b :: b in Upcoming(CancelIn(bookings, id)) ==> b.id != id
  {
    var r := CancelIn(bookings, id);
    forall k | 0 <= k < |r| ensures r[k].id == id ==> r[k].status == Cancelled {
    }
  }
}
