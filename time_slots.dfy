/**
 * The time-slot grid of the booking flow: thirteen hourly slots from 10:00 to 22:00,
 * their 12-hour labels, and the rule that a booked slot cannot be selected.
 */
module TimeSlots {
  import opened Wrappers
  import opened Text

  const SlotCount: nat := 13
  const FirstHour: nat := 10

  /** `s.padStart(2, '0')` */
  function PadStart2(s: string): (r: string)
    ensures |r| == if |s| < 2 then 2 else |s|
    ensures |s| >= 2 ==> r == s
  {
    if |s| >= 2 then s else seq(2 - |s|, _ => '0') + s
  }

  /** `${hour.toString().padStart(2, '0')}:00` */
  function SlotLabel(hour: nat): string {
    PadStart2(NatToDecimal(hour)) + ":00"
  }

  /** The generated slots, one per hour starting at 10. */
  function Slots(): (slots: seq<string>)
    ensures |slots| == SlotCount
  {
    seq(SlotCount, i requires 0 <= i => SlotLabel(FirstHour + i))
  }

  /** The decimal rendering of a two-digit number is its two digits. */
  lemma TwoDigits(n: nat)
    requires 10 <= n < 100
    ensures NatToDecimal(n) == [DigitChar(n / 10), DigitChar(n % 10)]
  {
    assert NatToDecimal(n) == NatToDecimal(n / 10) + [DigitChar(n % 10)];
  }

  /** Slot i is the two-digit hour 10 + i followed by `:00`. */
  lemma SlotIsHour(i: nat)
    requires i < SlotCount
    ensures Slots()[i] == NatToDecimal(FirstHour + i) + ":" + "00"
    ensures |NatToDecimal(FirstHour + i)| == 2
  {
    TwoDigits(FirstHour + i);
    assert Slots()[i] == SlotLabel(FirstHour + i);
    assert ":00" == ":" + "00";
  }

  lemma Decimal10()
    ensures NatToDecimal(10) == "10"
  {
    TwoDigits(10);
  }

  lemma Decimal12()
    ensures NatToDecimal(12) == "12"
  {
    TwoDigits(12);
  }

  lemma Decimal22()
    ensures NatToDecimal(22) == "22"
  {
    TwoDigits(22);
  }

  /** The first slot is `10:00` and the last one `22:00`. */
  lemma SlotRange()
    ensures Slots()[0] == "10:00" && Slots()[SlotCount - 1] == "22:00"
  {
    SlotIsHour(0);
    SlotIsHour(SlotCount - 1);
    Decimal10();
    Decimal22();
  }

  /** The hour `formatTime` reads: `parseInt(time.split(':')[0])`, None for `NaN`. */
  function HourOf(time: string): Option<int> {
    ParseInt(Split(time, ":")[0])
  }

  /** Reading the hour of `n:rest` gives back n. */
  lemma HourOfDecimal(n: nat, rest: string)
    ensures HourOf(NatToDecimal(n) + ":" + rest) == Some(n)
  {
    var d := NatToDecimal(n);
    assert d + ":" + rest == d + [':'] + rest;
    forall k | 0 <= k < |d| ensures d[k] != ':' {
      assert IsDigit(d[k]);
    }
    SplitAtFirst(d, ':', rest);
    ParseIntOfDecimal(n, []);
    assert d + [] == d;
  }

  /** The slots carry the hours 10, 11, …, 22 in order, so they are distinct and strictly
      increasing. */
  lemma SlotHours(i: nat, j: nat)
    requires i < j < SlotCount
    ensures HourOf(Slots()[i]) == Some(FirstHour + i)
    ensures HourOf(Slots()[j]) == Some(FirstHour + j)
    ensures HourOf(Slots()[i]).value < HourOf(Slots()[j]).value
    ensures Slots()[i] != Slots()[j]
  {
    SlotHour(i);
    SlotHour(j);
  }

  lemma SlotHour(i: nat)
    requires i < SlotCount
    ensures HourOf(Slots()[i]) == Some(FirstHour + i)
  {
    SlotIsHour(i);
    HourOfDecimal(FirstHour + i, "00");
  }

  /** JavaScript's `%`: the remainder takes the sign of the dividend. */
  function JsRemainder(a: int, b: int): (r: int)
    requires b > 0
    ensures -b < r < b
    ensures a >= 0 ==> r == a % b
    ensures a < 0 ==> r <= 0 && r == -((-a) % b)
  {
    if a >= 0 then a % b else -((-a) % b)
  }

  /** `h % 12 || 12`; `NaN % 12` is `NaN`, which is falsy, so it gives 12 too. */
  function Hour12(h: Option<int>): (r: int)
    ensures h.None? ==> r == 12
    ensures h.Some? && h.value >= 0 ==> 1 <= r <= 12 && r % 12 == h.value % 12
  {
    match h
    case None => 12
    case Some(v) =>
      var m := JsRemainder(v, 12);
      if m == 0 then 12 else m
  }

  /** `h >= 12 ? 'PM' : 'AM'`; a comparison with `NaN` is false. */
  function Meridiem(h: Option<int>): string {
    if h.Some? && h.value >= 12 then "PM" else "AM"
  }

  /** formatTime */
  function FormatTime(time: string): string {
    var h := HourOf(time);
    IntToDecimal(Hour12(h)) + " " + Meridiem(h)
  }

  /** The hour on the 12-hour clock of a non-negative hour n: `n % 12 || 12`. */
  function TwelveHour(n: nat): (h: nat)
    ensures 1 <= h <= 12 && h % 12 == n % 12
  {
    if n % 12 == 0 then 12 else n % 12
  }

  /** For every time `n:…` the label is the hour on the 12-hour clock, in 1..12, followed by
      `PM` exactly when n is at least 12. */
  lemma FormatTimeOfHour(n: nat, rest: string)
    ensures FormatTime(NatToDecimal(n) + ":" + rest)
      == NatToDecimal(TwelveHour(n)) + " " + (if n >= 12 then "PM" else "AM")
  {
    HourOfDecimal(n, rest);
  }

  /** A time whose hour part is not a number is shown as `12 AM`. */
  lemma FormatTimeWithoutHour(time: string)
    requires HourOf(time).None?
    ensures FormatTime(time) == "12 AM"
  {
    Decimal12();
  }

  /** The label of every generated slot: `10 AM`, `11 AM`, `12 PM`, `1 PM`, …, `10 PM`. */
  lemma FormatSlot(i: nat)
    requires i < SlotCount
    ensures var h := FirstHour + i;
      FormatTime(Slots()[i])
        == NatToDecimal(if h <= 12 then h else h - 12) + " " + (if h >= 12 then "PM" else "AM")
  {
    SlotIsHour(i);
    FormatDaytimeHour(FirstHour + i, Slots()[i], "00");
  }

  /** The label of an hour between 10 and 22, whatever follows its colon. */
  lemma FormatDaytimeHour(h: nat, t: string, rest: string)
    requires 10 <= h <= 22 && t == NatToDecimal(h) + ":" + rest
    ensures FormatTime(t) == NatToDecimal(if h <= 12 then h else h - 12) + " " + (if h >= 12 then "PM" else "AM")
  {
    FormatTimeOfHour(h, rest);
    TwelveHourOfDaytime(h);
  }

  lemma TwelveHourOfDaytime(h: nat)
    requires 10 <= h <= 22
    ensures TwelveHour(h) == if h <= 12 then h else h - 12
  {
    if h < 12 {
      assert h % 12 == h;
    } else {
      assert h % 12 == h - 12;
    }
  }

  /** `bookedSlots.includes(time)` */
  predicate IsBooked(bookedSlots: seq<string>, time: string) {
    time in bookedSlots
  }

  /** Pressing a slot's button: a booked slot's button is disabled, so `onSelect` is
      reached only for a free slot, and with that slot. */
  function Press(bookedSlots: seq<string>, time: string): (selected: Option<string>)
    ensures selected.Some? <==> !IsBooked(bookedSlots, time)
    ensures selected.Some? ==> selected.value == time
  {
    if IsBooked(bookedSlots, time) then None else Some(time)
  }

  /** The count in `… slots available`: always the number of slots. */
  function ShownSlotCount(bookedSlots: seq<string>): (n: nat)
    ensures n == SlotCount
  {
    |Slots()|
  }

  /** The slots that can be selected: those that are not booked, in order. */
  function SelectableSlots(bookedSlots: seq<string>): (r: seq<string>)
    ensures forall t :: t in r <==> t in Slots() && !IsBooked(bookedSlots, t)
  {
    FilterFree(Slots(), bookedSlots)
  }

  function FilterFree(slots: seq<string>, bookedSlots: seq<string>): (r: seq<string>)
    ensures |r| <= |slots|
    ensures forall t :: t in r <==> t in slots && t !in bookedSlots
    decreases |slots|
  {
    if slots == [] then []
    else (if slots[0] in bookedSlots then [] else [slots[0]]) + FilterFree(slots[1..], bookedSlots)
  }

  /** With nothing booked every slot can be selected. */
  lemma NothingBookedAllSelectable()
    ensures SelectableSlots([]) == Slots()
  {
    FreeOfNothing(Slots());
  }

  lemma {:induction false} FreeOfNothing(slots: seq<string>)
    ensures FilterFree(slots, []) == slots
    decreases |slots|
  {
    if slots != [] {
      FreeOfNothing(slots[1..]);
      assert [slots[0]] + slots[1..] == slots;
    }
  }
}
