/**
 * models/showtimeModel.go with the Capacity field of models/theaterModel.go: the showtime
 * record, its save-time checks (BeforeSave) and the seat counter. The database lookup of
 * the theater is a map from theater id to record; the clock is the parameter `now`.
 */
module Showtime {
  import opened Wrappers

  /** models.Theater; only `capacity` takes part in any check. */
  datatype Theater = Theater(name: string, capacity: int, location: string)

  /** models.ShowTime; `theater` is the optional preloaded association, times are instants. */
  datatype ShowTime = ShowTime(
    price: int,
    startTime: int,
    availableSeats: int,
    movieId: int,
    theaterId: int,
    theater: Option<Theater>)

  /** NewShowTime: the five given fields, no theater loaded yet. */
  function NewShowTime(price: int, startTime: int, availableSeats: int, movieId: int, theaterId: int): (st: ShowTime)
    ensures st.price == price && st.startTime == startTime && st.availableSeats == availableSeats
    ensures st.movieId == movieId && st.theaterId == theaterId
    ensures st.theater.None?
  {
    ShowTime(price, startTime, availableSeats, movieId, theaterId, None)
  }

  datatype SaveError = RecordNotFound | TheaterNotFound | InvalidAvailableSeats | InvalidStartTime

  /** The verdict of BeforeSave together with the record, which keeps a theater loaded on the way. */
  datatype SaveCheck = SaveCheck(err: Option<SaveError>, st: ShowTime)

  /**
   * BeforeSave: load the theater by id when none is attached and the id is non-zero
   * (a failed lookup is returned as is), then refuse a missing theater, a seat count
   * outside 0..capacity, and a start time strictly before now.
   */
  function BeforeSave(st: ShowTime, theaters: map<int, Theater>, now: int): (r: SaveCheck)
    ensures st.theater.None? && st.theaterId != 0 && st.theaterId !in theaters ==>
              r == SaveCheck(Some(RecordNotFound), st)
    ensures st.theater.None? && st.theaterId == 0 ==> r == SaveCheck(Some(TheaterNotFound), st)
    ensures r.err != Some(RecordNotFound) ==>
              r.st.theater.Some?
              || (st.theater.None? && st.theaterId == 0 && r.err == Some(TheaterNotFound))
    ensures r.st == st || (st.theater.None? && r.st == st.(theater := Some(theaters[st.theaterId])))
    ensures r.err == None <==>
              && r.st.theater.Some?
              && 0 <= st.availableSeats <= r.st.theater.value.capacity
              && !(st.startTime < now)
  {
    var loaded :=
      if st.theater.None? && st.theaterId != 0 then
        if st.theaterId in theaters then Ok(st.(theater := Some(theaters[st.theaterId])))
        else Err(RecordNotFound)
      else Ok(st);
    match loaded
    case Err(e) => SaveCheck(Some(e), st)
    case Ok(st') =>
      if st'.theater.None? then SaveCheck(Some(TheaterNotFound), st')
      else if st'.availableSeats < 0 || st'.availableSeats > st'.theater.value.capacity then
        SaveCheck(Some(InvalidAvailableSeats), st')
      else if st'.startTime < now then SaveCheck(Some(InvalidStartTime), st')
      else SaveCheck(None, st')
  }

  /**
   * A freshly built showtime saves exactly when its theater id names a stored theater
   * whose capacity bounds the seat count and the show has not started.
   */
  lemma NewShowTimeSaves(price: int, startTime: int, seats: int, movieId: int, theaterId: int,
                         theaters: map<int, Theater>, now: int)
    ensures var r := BeforeSave(NewShowTime(price, startTime, seats, movieId, theaterId), theaters, now);
            r.err == None <==>
              && theaterId != 0 && theaterId in theaters
              && 0 <= seats <= theaters[theaterId].capacity
              && now <= startTime
  {
  }

  datatype SeatError = NotEnoughSeats

  /**
   * SeatReserveAvailability: refuse more seats than are available, otherwise subtract
   * exactly `seats` (no lower bound is checked, so a negative request adds seats).
   */
  function SeatReserveAvailability(st: ShowTime, seats: int): (r: Result<ShowTime, SeatError>)
    ensures r.Err? <==> seats > st.availableSeats
    ensures r.Ok? ==> r.value == st.(availableSeats := st.availableSeats - seats)
  {
    if seats > st.availableSeats then Err(NotEnoughSeats)
    else Ok(st.(availableSeats := st.availableSeats - seats))
  }

  /** SeatReturn: add `seats` back. */
  function SeatReturn(st: ShowTime, seats: int): (r: ShowTime)
    ensures r.availableSeats == st.availableSeats + seats
    ensures r.(availableSeats := st.availableSeats) == st
  {
    st.(availableSeats := st.availableSeats + seats)
  }

  /** A successful reservation followed by the return of the same count restores the showtime. */
  lemma ReserveThenReturn(st: ShowTime, seats: int)
    requires SeatReserveAvailability(st, seats).Ok?
    ensures SeatReturn(SeatReserveAvailability(st, seats).value, seats) == st
  {
  }

  /** Reserving a count between zero and the available seats never drives the counter negative. */
  lemma ReserveKeepsNonNegative(st: ShowTime, seats: int)
    requires 0 <= seats
    requires st.availableSeats >= 0
    ensures SeatReserveAvailability(st, seats).Ok? ==> SeatReserveAvailability(st, seats).value.availableSeats >= 0
    ensures SeatReserveAvailability(st, seats).Ok? ==> SeatReserveAvailability(st, seats).value.availableSeats <= st.availableSeats
  {
  }

  /** On a non-negative counter a negative request passes the check and increases the available seats. */
  lemma NegativeReserveAddsSeats(st: ShowTime, seats: int)
    requires seats < 0 <= st.availableSeats
    ensures SeatReserveAvailability(st, seats).Ok?
    ensures SeatReserveAvailability(st, seats).value.availableSeats > st.availableSeats
  {
  }

  /**
   * A reservation made on a saveable showtime with a count between zero and the
   * available seats leaves a showtime whose seat count still satisfies the save checks.
   */
  lemma ReserveKeepsSaveable(st: ShowTime, theaters: map<int, Theater>, now: int, seats: int)
    requires st.theater.Some?
    requires BeforeSave(st, theaters, now).err == None
    requires 0 <= seats
    requires SeatReserveAvailability(st, seats).Ok?
    ensures BeforeSave(SeatReserveAvailability(st, seats).value, theaters, now).err == None
  {
  }
}
