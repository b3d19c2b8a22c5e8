/**
 * models/reservationModel.go (the reservation record and the in-memory list) and
 * services/reservationService.go (creating and cancelling a reservation against a
 * showtime). A database write is the flag `dbOk`: true when it succeeds.
 */
module Reservations {
  import opened Wrappers
  import opened Showtime

  /** models.Reservation; `expired` is the unexported expiryStatus field. */
  datatype Reservation = Reservation(userId: int, showTimeId: int, seats: int, cost: int, expired: bool)

  /** NewReservation: the four given fields, not expired. */
  function NewReservation(userId: int, showTimeId: int, seats: int, cost: int): (r: Reservation)
    ensures r.userId == userId && r.showTimeId == showTimeId && r.seats == seats && r.cost == cost
    ensures !r.expired
  {
    Reservation(userId, showTimeId, seats, cost, false)
  }

  /** SetExpired: marks the reservation expired and changes nothing else. */
  function SetExpired(r: Reservation): (r': Reservation)
    ensures r'.expired
    ensures r'.(expired := r.expired) == r
  {
    r.(expired := true)
  }

  /** Marking twice is marking once. */
  lemma SetExpiredIdempotent(r: Reservation)
    ensures SetExpired(SetExpired(r)) == SetExpired(r)
  {
  }

  /** ReservationsModel: the reservations in the order they were created. */
  datatype ReservationsModel = ReservationsModel(reservations: seq<Reservation>)

  function NewReservationModel(): (m: ReservationsModel)
    ensures |Get(m)| == 0
  {
    ReservationsModel([])
  }

  /** Create appends at the end. */
  function Create(m: ReservationsModel, r: Reservation): (m': ReservationsModel)
    ensures |Get(m')| == |Get(m)| + 1
    ensures Get(m')[..|Get(m)|] == Get(m) && Get(m')[|Get(m)|] == r
  {
    ReservationsModel(m.reservations + [r])
  }

  function Get(m: ReservationsModel): seq<Reservation> {
    m.reservations
  }

  /** Creating each of `rs` in turn. */
  function CreateAll(m: ReservationsModel, rs: seq<Reservation>): ReservationsModel
    decreases |rs|
  {
    if rs == [] then m else CreateAll(Create(m, rs[0]), rs[1..])
  }

  /** Get lists what was there before, then every created reservation, in creation order. */
  lemma {:induction false} CreateAllInOrder(m: ReservationsModel, rs: seq<Reservation>)
    ensures Get(CreateAll(m, rs)) == Get(m) + rs
    decreases |rs|
  {
    if rs != [] {
      CreateAllInOrder(Create(m, rs[0]), rs[1..]);
      assert Get(Create(m, rs[0])) == Get(m) + [rs[0]];
      assert Get(m) + [rs[0]] + rs[1..] == Get(m) + rs;
    }
  }

  datatype ReservationError = SeatsUnavailable(reason: SeatError) | DbError

  /** The service's answer together with the showtime as it stands afterwards. */
  datatype CreateOutcome = CreateOutcome(result: Result<Reservation, ReservationError>, showtime: ShowTime)

  /**
   * CreateReservation: the seat check runs first and, when it fails, nothing is stored
   * and the showtime is unchanged; the insert runs only after the check has already
   * taken the seats, and its failure does not give them back.
   */
  function CreateReservation(res: Reservation, st: ShowTime, dbOk: bool): (out: CreateOutcome)
    ensures res.seats > st.availableSeats ==>
              out == CreateOutcome(Err(SeatsUnavailable(NotEnoughSeats)), st)
    ensures res.seats <= st.availableSeats ==>
              && out.showtime == st.(availableSeats := st.availableSeats - res.seats)
              && out.result == (if dbOk then Ok(res) else Err(DbError))
  {
    match SeatReserveAvailability(st, res.seats)
    case Err(e) => CreateOutcome(Err(SeatsUnavailable(e)), st)
    case Ok(st') =>
      if !dbOk then CreateOutcome(Err(DbError), st')
      else CreateOutcome(Ok(res), st')
  }

  /** The answer of CancelReservation together with the showtime afterwards. */
  datatype CancelOutcome = CancelOutcome(err: Option<ReservationError>, showtime: ShowTime)

  /** CancelReservation: the seats go back to the showtime first, whether or not the delete then fails. */
  function CancelReservation(res: Reservation, st: ShowTime, dbOk: bool): (out: CancelOutcome)
    ensures out.showtime.availableSeats == st.availableSeats + res.seats
    ensures out.showtime == st.(availableSeats := out.showtime.availableSeats)
    ensures out.err == None <==> dbOk
  {
    CancelOutcome(if dbOk then None else Some(DbError), SeatReturn(st, res.seats))
  }

  /** Cancelling a reservation whose creation passed the seat check restores the showtime. */
  lemma CreateThenCancelRestores(res: Reservation, st: ShowTime, createOk: bool, cancelOk: bool)
    requires res.seats <= st.availableSeats
    ensures CancelReservation(res, CreateReservation(res, st, createOk).showtime, cancelOk).showtime == st
  {
  }

  /** A failed insert after a passing seat check leaves the showtime short of the requested seats. */
  lemma FailedInsertKeepsSeatsTaken(res: Reservation, st: ShowTime)
    requires 0 < res.seats <= st.availableSeats
    ensures CreateReservation(res, st, false).result == Err(DbError)
    ensures CreateReservation(res, st, false).showtime.availableSeats < st.availableSeats
  {
  }

  /** Creating each of `rs` against one showtime in turn, with every insert succeeding; None once a seat check fails. */
  function Book(st: ShowTime, rs: seq<Reservation>): (out: Option<ShowTime>)
    decreases |rs|
  {
    if rs == [] then Some(st)
    else
      var step := CreateReservation(rs[0], st, true);
      if step.result.Err? then None else Book(step.showtime, rs[1..])
  }

  function TotalSeats(rs: seq<Reservation>): int
    decreases |rs|
  {
    if rs == [] then 0 else rs[0].seats + TotalSeats(rs[1..])
  }

  /**
   * Over any run of successful creations with non-negative counts, the seats taken add
   * up to the drop in the showtime's available seats, which never goes negative.
   */
  lemma {:induction false} BookAccountsForSeats(st: ShowTime, rs: seq<Reservation>)
    requires st.availableSeats >= 0
    requires forall i | 0 <= i < |rs| :: rs[i].seats >= 0
    requires Book(st, rs).Some?
    ensures Book(st, rs).value.availableSeats == st.availableSeats - TotalSeats(rs)
    ensures Book(st, rs).value.availableSeats >= 0
    ensures Book(st, rs).value == st.(availableSeats := Book(st, rs).value.availableSeats)
    decreases |rs|
  {
    if rs != [] {
      var step := CreateReservation(rs[0], st, true);
      BookAccountsForSeats(step.showtime, rs[1..]);
    }
  }
}
