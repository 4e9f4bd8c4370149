/** The reservation dialogue: pick a book, a pickup day and an optional comment,
    then store the booking. Each handler is a transition of one conversation; the
    per-user record the handlers fill step by step is `draft`. */
module Reservation {
  import opened Wrappers
  import opened Text
  import opened Models
  import opened Callbacks
  import Crud

  /** The conversation states; `Ended` is the handler library's END. */
  datatype State = Ended | SelectingDate | EnteringComment

  /** What the date-picker widget makes of a callback: another step of the
      picker, a chosen day, or neither. The widget itself is not modelled. */
  datatype CalendarStep = Pending | Chosen(day: int) | Nothing

  const CommentLimit: nat := 500

  /** The record's keys. `comment` tells an absent key (None) from a key that
      holds None (Some(None)), which is what skipping the comment stores. */
  datatype Draft = Draft(
    bookId: Option<int>,
    bookTitle: Option<string>,
    pickupDate: Option<int>,
    comment: Option<Option<string>>)

  const EmptyDraft: Draft := Draft(None, None, None, None)

  /** The comment handed to the store: `user_data.get('booking_comment')`. */
  function CommentOf(d: Draft): Option<string> {
    d.comment.GetOr(None)
  }

  /** The store accepts the booking the draft describes. */
  ghost predicate Accepts(store: Crud.Store, telegramId: int, d: Draft)
    reads store
  {
    && d.bookId.Some? && d.pickupDate.Some?
    && store.HasUser(telegramId)
    && d.bookId.value in store.books && store.books[d.bookId.value].isAvailable
    && !HasActive(store.bookings, store.UserKey(telegramId), d.bookId.value)
  }

  /** The booking the store then adds. */
  ghost function Requested(store: Crud.Store, telegramId: int, d: Draft): Booking
    reads store
    requires Accepts(store, telegramId, d)
  {
    Booking(store.nextBookingId, store.UserKey(telegramId), d.bookId.value, Active, d.pickupDate.value, CommentOf(d))
  }

  class BookingDialogue {
    var state: State
    var draft: Draft

    /** What later steps read is there once a state is reached. */
    ghost predicate Consistent()
      reads this
    {
      && (state == SelectingDate ==> draft.bookId.Some?)
      && (state == EnteringComment ==> draft.bookId.Some? && draft.pickupDate.Some?)
    }

    constructor ()
      ensures state == Ended && draft == EmptyDraft && Consistent()
    {
      state := Ended;
      draft := EmptyDraft;
    }

    /** `start_booking`: a malformed callback raises before anything happens; a
        missing or unavailable book, or one this user already holds actively,
        ends the dialogue with nothing recorded; otherwise the book's id and
        title are recorded and the date is asked for. */
    method Start(store: Crud.Store, telegramId: int, data: string) returns (r: Outcome<State>)
      requires store.Valid()
      modifies this
      ensures FieldInt(data, 2).Raised? ==>
        r == Raised(FieldInt(data, 2).error) && state == old(state) && draft == old(draft)
      ensures FieldInt(data, 2).Ok? ==> r.Ok? && state == r.value && r.value != EnteringComment
      ensures FieldInt(data, 2).Ok? ==> var id := FieldInt(data, 2).value;
        && (r == Ok(SelectingDate) <==>
              && id in store.books && store.books[id].isAvailable
              && !(store.HasUser(telegramId) && HasActive(store.bookings, store.UserKey(telegramId), id)))
        && (r == Ok(SelectingDate) ==>
              draft == old(draft).(bookId := Some(id), bookTitle := Some(store.books[id].title)))
        && (r == Ok(Ended) ==> draft == old(draft))
      ensures FieldInt(data, 2).Ok? || old(Consistent()) ==> Consistent()
    {
      var parsed := FieldInt(data, 2);
      if parsed.Raised? {
        return Raised(parsed.error);
      }
      var id := parsed.value;
      var book := store.BookById(id);
      if book.None? || !book.value.isAvailable {
        state := Ended;
        return Ok(Ended);
      }
      var existing := store.ActiveBooking(telegramId, id);
      if existing.Some? {
        state := Ended;
        return Ok(Ended);
      }
      draft := draft.(bookId := Some(id), bookTitle := Some(book.value.title));
      state := SelectingDate;
      r := Ok(SelectingDate);
    }

    /** `handle_calendar`: another picker step stays in date selection; a day
        before today ends the dialogue without storing it; any other day (the
        upper bound of the window is left to the widget) is stored and the
        comment is asked for. When the widget yields nothing the handler returns
        None and the state is kept. */
    method HandleCalendar(step: CalendarStep, today: int) returns (r: Option<State>)
      modifies this
      ensures step == Nothing ==> r == None && state == old(state) && draft == old(draft)
      ensures step == Pending ==> r == Some(SelectingDate) && state == SelectingDate && draft == old(draft)
      ensures step.Chosen? && step.day < today ==>
        r == Some(Ended) && state == Ended && draft == old(draft)
      ensures step.Chosen? && step.day >= today ==>
        r == Some(EnteringComment) && state == EnteringComment
        && draft == old(draft).(pickupDate := Some(step.day))
      ensures old(state) == SelectingDate && old(Consistent()) ==> Consistent()
    {
      match step
      case Nothing =>
        r := None;
      case Pending =>
        state := SelectingDate;
        r := Some(SelectingDate);
      case Chosen(day) =>
        if day < today {
          state := Ended;
          r := Some(Ended);
        } else {
          draft := draft.(pickupDate := Some(day));
          state := EnteringComment;
          r := Some(EnteringComment);
        }
    }

    /** `create_booking_in_db`: always ends the dialogue. The record is cleared
        only when the store accepted the booking; when it refused (or the insert
        failed on a missing date) the record is left as it was. */
    method CreateInDb(store: Crud.Store, telegramId: int) returns (r: State)
      requires store.Valid()
      modifies this, store
      ensures store.Valid()
      ensures r == Ended && state == Ended
      ensures old(Accepts(store, telegramId, draft)) ==>
        && store.bookings == old(store.bookings)[old(store.nextBookingId) := old(Requested(store, telegramId, draft))]
        && store.nextBookingId == old(store.nextBookingId) + 1
        && draft == EmptyDraft
      ensures !old(Accepts(store, telegramId, draft)) ==>
        store.bookings == old(store.bookings) && store.nextBookingId == old(store.nextBookingId) && draft == old(draft)
      ensures store.users == old(store.users) && store.categories == old(store.categories) && store.books == old(store.books)
      ensures store.nextUserId == old(store.nextUserId) && store.nextCategoryId == old(store.nextCategoryId)
      ensures store.nextBookId == old(store.nextBookId)
    {
      state := Ended;
      r := Ended;
      if draft.bookId.None? || draft.pickupDate.None? {
        // no book matches a missing id, and a missing date fails the NOT NULL
        // constraint: either way nothing is stored and the record is kept
        return;
      }
      var booking := store.CreateBooking(telegramId, draft.bookId.value, draft.pickupDate.value, CommentOf(draft));
      if booking.Some? {
        draft := EmptyDraft;
      }
    }

    /** `handle_comment`: a stripped comment over 500 characters is refused and
        asked for again; otherwise it is recorded and the booking is created. */
    method HandleComment(store: Crud.Store, telegramId: int, text: string) returns (r: State)
      requires store.Valid()
      modifies this, store
      ensures store.Valid()
      ensures |Strip(text)| > CommentLimit ==>
        && r == EnteringComment && state == EnteringComment && draft == old(draft)
        && store.bookings == old(store.bookings) && store.nextBookingId == old(store.nextBookingId)
      ensures |Strip(text)| <= CommentLimit ==> r == Ended && state == Ended
      ensures |Strip(text)| <= CommentLimit ==>
        var d := old(draft).(comment := Some(Some(Strip(text))));
        && (old(Accepts(store, telegramId, d)) ==>
              && store.bookings == old(store.bookings)[old(store.nextBookingId) := old(Requested(store, telegramId, d))]
              && draft == EmptyDraft)
        && (!old(Accepts(store, telegramId, d)) ==> store.bookings == old(store.bookings) && draft == d)
      ensures store.users == old(store.users) && store.categories == old(store.categories) && store.books == old(store.books)
      ensures old(state) == EnteringComment && old(Consistent()) ==> Consistent()
    {
      var comment := Strip(text);
      if |comment| > CommentLimit {
        state := EnteringComment;
        return EnteringComment;
      }
      draft := draft.(comment := Some(Some(comment)));
      r := CreateInDb(store, telegramId);
    }

    /** `skip_comment`: records that there is no comment and creates the booking. */
    method SkipComment(store: Crud.Store, telegramId: int) returns (r: State)
      requires store.Valid()
      modifies this, store
      ensures store.Valid()
      ensures r == Ended && state == Ended
      ensures var d := old(draft).(comment := Some(None));
        && (old(Accepts(store, telegramId, d)) ==>
              && store.bookings == old(store.bookings)[old(store.nextBookingId) := old(Requested(store, telegramId, d))]
              && store.bookings[old(store.nextBookingId)].comment.None?
              && draft == EmptyDraft)
        && (!old(Accepts(store, telegramId, d)) ==> store.bookings == old(store.bookings) && draft == d)
      ensures store.users == old(store.users) && store.categories == old(store.categories) && store.books == old(store.books)
    {
      draft := draft.(comment := Some(None));
      r := CreateInDb(store, telegramId);
    }

    /** `cancel_booking`: clears the record and ends, without touching the store. */
    method Cancel() returns (r: State)
      modifies this
      ensures r == Ended && state == Ended && draft == EmptyDraft
      ensures Consistent()
    {
      draft := EmptyDraft;
      state := Ended;
      r := Ended;
    }
  }
}
