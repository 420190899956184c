/** The search bar of the public dashboard: the guest counters and their summary, the
    location and guests dropdowns, and the check-in and check-out calendars. Dates are
    abstract instants. */
module SearchBar {
  import opened Wrappers
  import opened Text

  datatype Guests = Guests(adults: int, children: int)

  /** Which counter a button names: `"adults"` or `"children"`. */
  datatype Counter = Adults | Children

  /** Which of the four pop-ups are open. */
  datatype Panels = Panels(location: bool, guests: bool, checkIn: bool, checkOut: bool)

  datatype Search = Search(panels: Panels, guests: Guests, location: string,
                           checkInDate: Option<int>, checkOutDate: Option<int>)

  /** The user actions the search bar handles. `ClickOutside` carries, for each pop-up,
      whether the mouse-down landed outside it (and outside its field). */
  datatype Event =
    | LocationClick
    | GuestsClick
    | CheckInClick
    | CheckOutClick
    | SelectLocation(place: string)
    | ChangeGuests(counter: Counter, operation: string)
    | PickCheckIn(date: int)
    | PickCheckOut(date: int)
    | ClickOutside(outLocation: bool, outGuests: bool, outCheckIn: bool, outCheckOut: bool)

  const Initial: Search := Search(Panels(false, false, false, false), Guests(0, 0), "", None, None)

  function Count(g: Guests, c: Counter): int
  {
    match c
    case Adults => g.adults
    case Children => g.children
  }

  /** `handleGuestChange(type, operation)`: "increase" adds one to the named counter; any
      other operation subtracts one but not below zero. The other counter is kept. */
  function ChangeCount(g: Guests, c: Counter, operation: string): (r: Guests)
    ensures operation == "increase" ==> Count(r, c) == Count(g, c) + 1
    ensures operation != "increase" && Count(g, c) >= 1 ==> Count(r, c) == Count(g, c) - 1
    ensures operation != "increase" && Count(g, c) <= 0 ==> Count(r, c) == 0
    ensures c == Adults ==> r.children == g.children
    ensures c == Children ==> r.adults == g.adults
    ensures Count(g, c) >= 0 ==> Count(r, c) >= 0
  {
    var prev := Count(g, c);
    var v := if operation == "increase" then prev + 1 else (if prev - 1 < 0 then 0 else prev - 1);
    match c
    case Adults => g.(adults := v)
    case Children => g.(children := v)
  }

  /** `getTotalGuests`. */
  function TotalGuests(g: Guests): int
  {
    g.adults + g.children
  }

  /** `getGuestsText`: the placeholder for nobody, the singular for one guest, and the
      count followed by "guests" otherwise. */
  function GuestsText(g: Guests): (r: string)
    ensures TotalGuests(g) == 0 ==> r == "Add Guests"
    ensures TotalGuests(g) == 1 ==> r == "1 guest"
    ensures TotalGuests(g) > 1 ==> r == NatToString(TotalGuests(g)) + " guests"
  {
    var total := TotalGuests(g);
    if total == 0 then "Add Guests"
    else if total == 1 then "1 guest"
    else IntToString(total) + " guests"
  }

  /** For a party of two or more, the text starts with the decimal count, and reading
      those digits back gives the number of guests. */
  lemma GuestsTextShowsCount(g: Guests)
    requires TotalGuests(g) > 1
    ensures var digits := NatToString(TotalGuests(g));
      GuestsText(g)[..|digits|] == digits && DigitsValue(digits) == TotalGuests(g)
  {
    NatToStringRoundTrip(TotalGuests(g));
  }

  /** One event handler. */
  function Step(s: Search, e: Event): Search
  {
    match e
    case LocationClick => s.(panels := s.panels.(location := true, guests := false))
    case GuestsClick => s.(panels := s.panels.(guests := true, location := false))
    case CheckInClick => s.(panels := Panels(false, false, true, false))
    case CheckOutClick => s.(panels := Panels(false, false, false, true))
    case SelectLocation(place) => s.(location := place, panels := s.panels.(location := false))
    case ChangeGuests(c, op) => s.(guests := ChangeCount(s.guests, c, op))
    case PickCheckIn(date) =>
      // The guard compares the new date with itself, as the handler does.
      var out := if s.checkOutDate.Some? && date < date then None else s.checkOutDate;
      s.(checkInDate := Some(date), panels := s.panels.(checkIn := false), checkOutDate := out)
    case PickCheckOut(date) => s.(checkOutDate := Some(date), panels := s.panels.(checkOut := false))
    case ClickOutside(ol, og, oi, oo) =>
      s.(panels := Panels(s.panels.location && !ol, s.panels.guests && !og,
                          s.panels.checkIn && !oi, s.panels.checkOut && !oo))
  }

  /** Opening one dropdown closes the other and leaves the calendars alone. */
  lemma DropdownsExclusive(s: Search)
    ensures var p := Step(s, LocationClick).panels;
      p.location && !p.guests && p.checkIn == s.panels.checkIn && p.checkOut == s.panels.checkOut
    ensures var p := Step(s, GuestsClick).panels;
      p.guests && !p.location && p.checkIn == s.panels.checkIn && p.checkOut == s.panels.checkOut
  {
  }

  /** Opening a calendar closes the other calendar and both dropdowns. */
  lemma CalendarsExclusive(s: Search)
    ensures Step(s, CheckInClick).panels == Panels(false, false, true, false)
    ensures Step(s, CheckOutClick).panels == Panels(false, false, false, true)
  {
  }

  /** Choosing a check-in date never clears the check-out date: the guard that should
      compare the two dates compares the new date with itself. */
  lemma CheckInKeepsCheckOut(s: Search, date: int)
    ensures Step(s, PickCheckIn(date)).checkOutDate == s.checkOutDate
    ensures Step(s, PickCheckIn(date)).checkInDate == Some(date)
    ensures !Step(s, PickCheckIn(date)).panels.checkIn
  {
  }

  /** The two dropdowns are never open together, nor are the two calendars, and both
      counters are non-negative. */
  predicate Coherent(s: Search)
  {
    && !(s.panels.location && s.panels.guests)
    && !(s.panels.checkIn && s.panels.checkOut)
    && s.guests.adults >= 0 && s.guests.children >= 0
  }

  function Run(s: Search, events: seq<Event>): Search
    decreases |events|
  {
    if |events| == 0 then s else Run(Step(s, events[0]), events[1..])
  }

  lemma StepCoherent(s: Search, e: Event)
    requires Coherent(s)
    ensures Coherent(Step(s, e))
  {
  }

  /** Every sequence of user actions from the initial bar keeps it coherent. */
  lemma {:induction false} RunCoherent(s: Search, events: seq<Event>)
    requires Coherent(s)
    ensures Coherent(Run(s, events))
    decreases |events|
  {
    if |events| > 0 {
      StepCoherent(s, events[0]);
      RunCoherent(Step(s, events[0]), events[1..]);
    }
  }

  lemma InitialCoherent()
    ensures Coherent(Initial)
    ensures GuestsText(Initial.guests) == "Add Guests"
  {
  }
}
