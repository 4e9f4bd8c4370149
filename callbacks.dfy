/** Inline-keyboard buttons, and the callback strings the bot writes into them as
    `_`-separated fields and reads back with `data.split('_')[i]`. */
module Callbacks {
  import opened Wrappers
  import opened Text

  /** A button: the text shown and the callback data sent back when pressed. */
  datatype Button = Button(text: string, data: string)

  /** Rows of buttons, top to bottom. */
  type Keyboard = seq<seq<Button>>

  const MainMenu: Button := Button("🏠 Главное меню", "main_menu")

  // ---------------------------------------------------------------------------
  // Reading a field
  // ---------------------------------------------------------------------------

  /** `data.split('_')[i]`: IndexError when there are not enough fields. */
  function Field(data: string, i: nat): (r: Outcome<string>)
    ensures r.Raised? <==> i >= |Split(data, '_')|
    ensures r.Raised? ==> r.error == IndexError
    ensures r.Ok? ==> '_' !in r.value
  {
    var parts := Split(data, '_');
    if i < |parts| then Ok(parts[i]) else Raised(IndexError)
  }

  /** `int(data.split('_')[i])`: IndexError or ValueError, or the number. */
  function FieldInt(data: string, i: nat): (r: Outcome<int>)
    ensures Field(data, i).Raised? ==> r == Raised(IndexError)
    ensures Field(data, i).Ok? ==> r == ParseInt(Field(data, i).value)
  {
    match Field(data, i)
    case Raised(e) => Raised(e)
    case Ok(s) => ParseInt(s)
  }

  /** Fields without the separator are read back one by one from their join. */
  lemma FieldOfJoin(parts: seq<string>, i: nat)
    requires |parts| >= 1 && i < |parts|
    requires forall k :: 0 <= k < |parts| ==> '_' !in parts[k]
    ensures Field(Join(parts, '_'), i) == Ok(parts[i])
  {
    SplitJoin(parts, '_');
  }

  /** The text of a number, read back as a field, is the number. */
  lemma IntFieldOfJoin(parts: seq<string>, i: nat, n: int)
    requires |parts| >= 1 && i < |parts| && parts[i] == IntToString(n)
    requires forall k :: 0 <= k < |parts| ==> '_' !in parts[k]
    ensures FieldInt(Join(parts, '_'), i) == Ok(n)
  {
    FieldOfJoin(parts, i);
    IntRoundTrip(n);
  }

  // ---------------------------------------------------------------------------
  // The callbacks that carry ids
  // ---------------------------------------------------------------------------

  /** `book_{id}`: open a book card. */
  function BookData(id: int): string
  {
    "book_" + IntToString(id)
  }

  /** `book_reserve_{id}`: start a reservation. */
  function ReserveData(id: int): string
  {
    "book_reserve_" + IntToString(id)
  }

  /** `category_{id}`: the first page of a category. */
  function CategoryData(id: int): string
  {
    "category_" + IntToString(id)
  }

  /** `category_{id}_page_{page}`: one page of a category. */
  function CategoryPageData(id: int, page: int): string
  {
    "category_" + IntToString(id) + "_page_" + IntToString(page)
  }

  /** `booking_detail_{id}`: open a booking. */
  function BookingDetailData(id: int): string
  {
    "booking_detail_" + IntToString(id)
  }

  /** `cancel_booking_{id}`: ask to cancel a booking. */
  function CancelBookingData(id: int): string
  {
    "cancel_booking_" + IntToString(id)
  }

  /** `confirm_cancel_{id}`: confirm the cancellation. */
  function ConfirmCancelData(id: int): string
  {
    "confirm_cancel_" + IntToString(id)
  }

  /** The book card reads its id from field 1 of `book_{id}`. */
  lemma BookDataRoundTrip(id: int)
    ensures FieldInt(BookData(id), 1) == Ok(id)
  {
    var n := IntToString(id);
    IntToStringHasNo(id, '_');
    JoinPair("book", n, '_');
    assert "book_" == "book" + ['_'];
    IntFieldOfJoin(["book", n], 1, id);
  }

  /** The reservation reads its book id from field 2 of `book_reserve_{id}`. */
  lemma ReserveDataRoundTrip(id: int)
    ensures FieldInt(ReserveData(id), 2) == Ok(id)
  {
    var n := IntToString(id);
    IntToStringHasNo(id, '_');
    JoinTriple("book", "reserve", n, '_');
    assert "book_reserve_" == "book" + ['_'] + "reserve" + ['_'];
    IntFieldOfJoin(["book", "reserve", n], 2, id);
  }

  /** The detail view reads the booking id from field 2 of `booking_detail_{id}`. */
  lemma BookingDetailDataRoundTrip(id: int)
    ensures FieldInt(BookingDetailData(id), 2) == Ok(id)
  {
    var n := IntToString(id);
    IntToStringHasNo(id, '_');
    JoinTriple("booking", "detail", n, '_');
    assert "booking_detail_" == "booking" + ['_'] + "detail" + ['_'];
    IntFieldOfJoin(["booking", "detail", n], 2, id);
  }

  /** The confirmation step reads the booking id from field 2 of `cancel_booking_{id}`. */
  lemma CancelBookingDataRoundTrip(id: int)
    ensures FieldInt(CancelBookingData(id), 2) == Ok(id)
  {
    var n := IntToString(id);
    IntToStringHasNo(id, '_');
    JoinTriple("cancel", "booking", n, '_');
    assert "cancel_booking_" == "cancel" + ['_'] + "booking" + ['_'];
    IntFieldOfJoin(["cancel", "booking", n], 2, id);
  }

  /** The cancellation reads the booking id from field 2 of `confirm_cancel_{id}`. */
  lemma ConfirmCancelDataRoundTrip(id: int)
    ensures FieldInt(ConfirmCancelData(id), 2) == Ok(id)
  {
    var n := IntToString(id);
    IntToStringHasNo(id, '_');
    JoinTriple("confirm", "cancel", n, '_');
    assert "confirm_cancel_" == "confirm" + ['_'] + "cancel" + ['_'];
    IntFieldOfJoin(["confirm", "cancel", n], 2, id);
  }
}
