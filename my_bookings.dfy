/** "My bookings": the list of a user's active bookings, the detail of one
    booking, and the two-step cancellation. Every handler that acts on a booking
    runs the same checks in the same order: the booking exists, it belongs to the
    requester, and (for cancellation) it is still active. */
module MyBookings {
  import opened Wrappers
  import opened Text
  import opened Models
  import opened Callbacks
  import Crud

  /** The first check that fails, or `Allowed` when all three pass. */
  datatype Verdict = NotFound | NotOwner | NotActive | Allowed

  /** The Telegram id of the user who holds a stored booking (`booking.user.telegram_id`). */
  function OwnerOf(store: Crud.Store, id: int): int
    reads store
    requires store.Valid() && id in store.bookings
  {
    store.users[store.bookings[id].userId].telegramId
  }

  /** The guard chain of `cancel_booking_confirm` and `cancel_booking_execute`. */
  function CancelVerdict(store: Crud.Store, requester: int, id: int): (v: Verdict)
    reads store
    requires store.Valid()
    ensures v == NotFound <==> id !in store.bookings
    ensures v == NotOwner <==> id in store.bookings && OwnerOf(store, id) != requester
    ensures v == Allowed ==> store.bookings[id].status == Active
  {
    if id !in store.bookings then NotFound
    else if OwnerOf(store, id) != requester then NotOwner
    else if store.bookings[id].status != Active then NotActive
    else Allowed
  }

  /** The guard lets through exactly the requester's own active bookings, the
      ones the store lists for that user with status Active. */
  lemma AllowedIffOwnActive(store: Crud.Store, requester: int, id: int)
    requires store.Valid()
    ensures CancelVerdict(store, requester, id) == Allowed <==>
      && store.HasUser(requester)
      && id in Crud.Selected(store.bookings, Crud.OfUser(store.UserKey(requester), Some(Active)))
  {
    if id in store.bookings && OwnerOf(store, id) == requester {
      var u := store.bookings[id].userId;
      assert u in store.users && store.users[u].telegramId == requester;
      assert store.HasUser(requester);
      var k := store.UserKey(requester);
      assert store.users[k].telegramId == store.users[u].telegramId;
    }
  }

  // ---------------------------------------------------------------------------
  // The detail of one booking
  // ---------------------------------------------------------------------------

  datatype DetailView = DetailMissing | DetailForbidden | Detail(keyboard: Keyboard)

  const BackToBookings: Button := Button("🔙 К броням", "my_bookings")

  /** The detail keyboard: a cancel button for an active booking only, then the
      book, then the way back. */
  function DetailKeyboard(b: Booking): Keyboard
  {
    (if b.status == Active then [[Button("❌ Отменить бронь", CancelBookingData(b.id))]] else [])
    + [[Button("📖 Открыть книгу", BookData(b.bookId))], [BackToBookings, MainMenu]]
  }

  /** Some button of the detail keyboard asks to cancel the booking exactly when
      it is active; that button hands the confirmation step the booking's id. */
  lemma CancelOfferedIffActive(b: Booking)
    ensures var k := DetailKeyboard(b);
      (exists i, j :: 0 <= i < |k| && 0 <= j < |k[i]| && k[i][j].data == CancelBookingData(b.id))
      <==> b.status == Active
    ensures b.status == Active ==> FieldInt(DetailKeyboard(b)[0][0].data, 2) == Ok(b.id)
  {
    var k: seq<seq<Button>> := DetailKeyboard(b);
    var c := CancelBookingData(b.id);
    assert c[0] == 'c';
    assert BookData(b.bookId)[0] == 'b';
    assert BackToBookings.data[0] == 'm' && MainMenu.data[0] == 'm';
    if b.status != Active {
      assert k == [[Button("📖 Открыть книгу", BookData(b.bookId))], [BackToBookings, MainMenu]];
      forall i: int, j: int | 0 <= i < |k| && 0 <= j < |k[i]|
        ensures k[i][j].data != c
      {
        assert k[i][j].data[0] != 'c';
      }
    } else {
      CancelBookingDataRoundTrip(b.id);
      assert k[0][0].data == c;
    }
  }

  /** `show_booking_detail`: the id is field 2 of `booking_detail_{id}` (a
      malformed callback raises); a missing booking and another user's booking
      are refused; the status is not checked. */
  function ShowBookingDetail(store: Crud.Store, requester: int, data: string): (r: Outcome<DetailView>)
    reads store
    requires store.Valid()
    ensures FieldInt(data, 2).Raised? ==> r == Raised(FieldInt(data, 2).error)
    ensures FieldInt(data, 2).Ok? ==> var id := FieldInt(data, 2).value;
      && r.Ok?
      && (r.value == DetailMissing <==> CancelVerdict(store, requester, id) == NotFound)
      && (r.value == DetailForbidden <==> CancelVerdict(store, requester, id) == NotOwner)
      && (r.value.Detail? <==> id in store.bookings && OwnerOf(store, id) == requester)
      && (r.value.Detail? ==> r.value.keyboard == DetailKeyboard(store.bookings[id]))
  {
    match FieldInt(data, 2)
    case Raised(e) => Raised(e)
    case Ok(id) =>
      if id !in store.bookings then Ok(DetailMissing)
      else if OwnerOf(store, id) != requester then Ok(DetailForbidden)
      else Ok(Detail(DetailKeyboard(store.bookings[id])))
  }

  // ---------------------------------------------------------------------------
  // Cancellation: confirm, then execute
  // ---------------------------------------------------------------------------

  datatype ConfirmView = ConfirmRefused(verdict: Verdict) | Confirm(keyboard: Keyboard)

  /** Yes goes on to `confirm_cancel_{id}`, no goes back to the detail. */
  function ConfirmKeyboard(id: int): Keyboard {
    [[Button("✅ Да, отменить", ConfirmCancelData(id)), Button("❌ Нет, вернуться", BookingDetailData(id))]]
  }

  /** `cancel_booking_confirm`: the confirmation is offered only when all three
      checks pass; otherwise the first failing check is reported. */
  function CancelBookingConfirm(store: Crud.Store, requester: int, data: string): (r: Outcome<ConfirmView>)
    reads store
    requires store.Valid()
    ensures FieldInt(data, 2).Raised? ==> r == Raised(FieldInt(data, 2).error)
    ensures FieldInt(data, 2).Ok? ==> var id := FieldInt(data, 2).value;
      && r.Ok?
      && (r.value.Confirm? <==> CancelVerdict(store, requester, id) == Allowed)
      && (r.value.ConfirmRefused? ==> r.value.verdict == CancelVerdict(store, requester, id))
      && (r.value.Confirm? ==> r.value.keyboard == ConfirmKeyboard(id))
  {
    match FieldInt(data, 2)
    case Raised(e) => Raised(e)
    case Ok(id) =>
      var v := CancelVerdict(store, requester, id);
      if v == Allowed then Ok(Confirm(ConfirmKeyboard(id))) else Ok(ConfirmRefused(v))
  }

  /** Both confirmation buttons carry the booking id back in field 2. */
  lemma ConfirmKeyboardRoundTrip(id: int)
    ensures FieldInt(ConfirmKeyboard(id)[0][0].data, 2) == Ok(id)
    ensures FieldInt(ConfirmKeyboard(id)[0][1].data, 2) == Ok(id)
  {
    ConfirmCancelDataRoundTrip(id);
    BookingDetailDataRoundTrip(id);
  }

  datatype ExecuteView = ExecuteRefused(verdict: Verdict) | Done(keyboard: Keyboard)

  function CancelledKeyboard(bookId: int): Keyboard {
    [[Button("📖 Открыть книгу", BookData(bookId))], [Button("📋 Мои брони", "my_bookings")], [MainMenu]]
  }

  /** `cancel_booking_execute`: the store's cancellation runs only when all three
      checks pass, so no request ever changes a booking of another user or one
      that is no longer active. (The store then always reports success, since the
      booking exists.) */
  method CancelBookingExecute(store: Crud.Store, requester: int, data: string) returns (r: Outcome<ExecuteView>)
    requires store.Valid()
    modifies store
    ensures store.Valid()
    ensures FieldInt(data, 2).Raised? ==>
      r == Raised(FieldInt(data, 2).error) && store.bookings == old(store.bookings)
    ensures FieldInt(data, 2).Ok? ==> var id := FieldInt(data, 2).value;
      && r.Ok?
      && (r.value.Done? <==> old(CancelVerdict(store, requester, id)) == Allowed)
      && (r.value.ExecuteRefused? ==>
            r.value.verdict == old(CancelVerdict(store, requester, id)) && store.bookings == old(store.bookings))
      && (r.value.Done? ==>
            && store.bookings == WithStatus(old(store.bookings), id, Cancelled)
            && r.value.keyboard == CancelledKeyboard(store.bookings[id].bookId))
    ensures forall k :: k in old(store.bookings) && (old(OwnerOf(store, k)) != requester || old(store.bookings[k].status) != Active) ==>
      k in store.bookings && store.bookings[k] == old(store.bookings[k])
    ensures store.users == old(store.users) && store.books == old(store.books) && store.categories == old(store.categories)
  {
    var parsed := FieldInt(data, 2);
    if parsed.Raised? {
      return Raised(parsed.error);
    }
    var id := parsed.value;
    var v := CancelVerdict(store, requester, id);
    if v != Allowed {
      return Ok(ExecuteRefused(v));
    }
    var bookId := store.bookings[id].bookId;
    var ok := store.CancelBooking(id);
    r := Ok(Done(CancelledKeyboard(bookId)));
  }

  // ---------------------------------------------------------------------------
  // The list
  // ---------------------------------------------------------------------------

  /** The keyboard shown when there is no active booking. */
  const NoBookingsKeyboard: Keyboard :=
    [[Button("📖 Каталог", "catalog")], [Button("🔍 Поиск", "search")], [MainMenu]]

  /** One booking of the list: the title cut to 30 characters and the pickup date
      (its `dd.mm.yyyy` rendering is a parameter). */
  function ListButton(b: Booking, title: string, dateText: int -> string): Button {
    Button("📚 " + Truncate(title, 30, 27) + " - " + dateText(b.pickupDate), BookingDetailData(b.id))
  }

  /** `show_my_bookings`: the requester's active bookings by ascending pickup
      date, one row each, then the main menu; or the empty-list keyboard. Every
      row opens a booking the requester is allowed to cancel. */
  method ShowMyBookings(store: Crud.Store, telegramId: int, dateText: int -> string)
    returns (shown: seq<Booking>, keyboard: Keyboard)
    requires store.Valid()
    ensures forall b :: b in shown <==>
      b.id in store.bookings && store.bookings[b.id] == b && CancelVerdict(store, telegramId, b.id) == Allowed
    ensures Crud.SortedByDate(shown) && Crud.DistinctIds(shown)
    ensures shown == [] ==> keyboard == NoBookingsKeyboard
    ensures shown != [] ==>
      && |keyboard| == |shown| + 1 && keyboard[|shown|] == [MainMenu]
      && forall i :: 0 <= i < |shown| ==>
           && shown[i].bookId in store.books
           && keyboard[i] == [ListButton(shown[i], store.books[shown[i].bookId].title, dateText)]
           && FieldInt(keyboard[i][0].data, 2) == Ok(shown[i].id)
  {
    shown := store.UserBookings(telegramId, Some(Active));
    forall b: Booking | b.id in store.bookings
      ensures CancelVerdict(store, telegramId, b.id) == Allowed <==>
        store.HasUser(telegramId) && store.bookings[b.id].userId == store.UserKey(telegramId)
        && store.bookings[b.id].status == Active
    {
      AllowedIffOwnActive(store, telegramId, b.id);
    }
    if shown == [] {
      keyboard := NoBookingsKeyboard;
      return;
    }
    keyboard := [];
    var i := 0;
    while i < |shown|
      invariant 0 <= i <= |shown| && |keyboard| == i
      invariant forall j :: 0 <= j < i ==>
        && shown[j].bookId in store.books
        && keyboard[j] == [ListButton(shown[j], store.books[shown[j].bookId].title, dateText)]
        && FieldInt(keyboard[j][0].data, 2) == Ok(shown[j].id)
    {
      var b := shown[i];
      assert b in shown;
      var title := store.books[b.bookId].title;
      BookingDetailDataRoundTrip(b.id);
      keyboard := keyboard + [[ListButton(b, title, dateText)]];
      i := i + 1;
    }
    keyboard := keyboard + [[MainMenu]];
  }
}
