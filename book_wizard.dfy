/** The administrators' book management dialogue: the six-step wizard that adds
    a book, and the two steps that delete one. Each handler is a transition of
    one conversation; `record` is the per-user record the steps fill in and every
    exit of the wizard clears. */
module BookWizard {
  import opened Wrappers
  import opened Text
  import opened Models
  import opened Callbacks
  import opened Genres
  import Crud

  /** The conversation states; `Ended` is the handler library's END. */
  datatype Step =
    | Ended | BookTitle | BookAuthor | BookPrice | BookCategory
    | BookDescription | BookGenres | BookConfirm | BookIdForDelete

  /** An update: typed text, or the data of a pressed button. */
  datatype Input = Typed(text: string) | Pressed(data: string)

  const CancelData := "bookmgmt_cancel"
  const TitleMin: nat := 2
  const TitleMax: nat := 255
  const AuthorMin: nat := 2
  const DescriptionMax: nat := 2000

  /** The record's keys; None is an absent key. `description` tells an absent key
      from a key holding None, which is what skipping the description stores. */
  datatype Record = Record(
    title: Option<string>,
    author: Option<string>,
    price: Option<real>,
    categories: Option<seq<Category>>,
    categoryId: Option<int>,
    categoryName: Option<string>,
    description: Option<Option<string>>,
    genres: Option<seq<string>>,
    deleteBookId: Option<int>)

  const Cleared: Record := Record(None, None, None, None, None, None, None, None, None)

  /** `is_admin`: membership in the configured administrator ids. */
  predicate IsAdmin(userId: int, admins: seq<int>) {
    userId in admins
  }

  /** The keys a step reads back are in the record when the step is reached. */
  predicate Filled(r: Record, s: Step) {
    match s
    case BookAuthor => r.title.Some?
    case BookPrice => r.title.Some? && r.author.Some?
    case BookCategory => r.title.Some? && r.author.Some? && r.price.Some? && r.categories.Some?
    case BookDescription | BookGenres =>
      r.title.Some? && r.author.Some? && r.price.Some? && r.categoryId.Some? && r.categoryName.Some?
    case BookConfirm => ReadyToCreate(r) || r.deleteBookId.Some?
    case _ => true
  }

  /** What `add_book_description` and `add_book_genres` read back with `[]` to
      show the summary, and would otherwise raise on. */
  predicate SummaryKeys(r: Record) {
    r.title.Some? && r.author.Some? && r.price.Some? && r.categoryName.Some?
  }

  /** What `add_book_confirm` reads with `[]` and would otherwise raise on. */
  predicate ReadyToCreate(r: Record) {
    r.title.Some? && r.author.Some? && r.price.Some? && r.categoryId.Some?
  }

  // ---------------------------------------------------------------------------
  // Categories offered by button
  // ---------------------------------------------------------------------------

  /** `addbook_cat_{id}`. */
  function CategoryChoiceData(id: int): string {
    "addbook_cat_" + IntToString(id)
  }

  lemma CategoryChoiceDataRoundTrip(id: int)
    ensures FieldInt(CategoryChoiceData(id), 2) == Ok(id)
  {
    var n := IntToString(id);
    IntToStringHasNo(id, '_');
    JoinTriple("addbook", "cat", n, '_');
    assert "addbook_cat_" == "addbook" + ['_'] + "cat" + ['_'];
    IntFieldOfJoin(["addbook", "cat", n], 2, id);
  }

  /** One button per category, then the cancel row. */
  function CategoryChoice(cats: seq<Category>): (k: Keyboard)
    ensures |k| == |cats| + 1
  {
    seq(|cats|, i requires 0 <= i < |cats| =>
      [Button(cats[i].emoji + " " + cats[i].name, CategoryChoiceData(cats[i].id))])
    + [[Button("❌ Отмена", CancelData)]]
  }

  /** `next((cat for cat in cats if cat.id == id), None)`: the first category
      with that id. */
  function FirstWithId(cats: seq<Category>, id: int): (r: Option<Category>)
    ensures r.Some? <==> exists i :: 0 <= i < |cats| && cats[i].id == id
    ensures r.Some? ==> r.value in cats && r.value.id == id
    ensures r.Some? ==> exists i :: 0 <= i < |cats| && cats[i] == r.value && forall j :: 0 <= j < i ==> cats[j].id != id
    decreases |cats|
  {
    if cats == [] then None
    else if cats[0].id == id then Some(cats[0])
    else
      var r := FirstWithId(cats[1..], id);
      assert forall i :: 0 < i < |cats| ==> cats[i] == cats[1..][i - 1];
      assert r.Some? ==> exists i :: 0 < i < |cats| && cats[i] == r.value && forall j :: 0 <= j < i ==> cats[j].id != id;
      r
  }

  /** Pressing any offered category button selects a cached category with the
      id it shows. */
  lemma CategoryChoiceFound(cats: seq<Category>, i: nat)
    requires i < |cats|
    ensures var data := CategoryChoice(cats)[i][0].data;
      && FieldInt(data, 2) == Ok(cats[i].id)
      && FirstWithId(cats, cats[i].id).Some?
  {
    CategoryChoiceDataRoundTrip(cats[i].id);
  }

  class BookManagement {
    var step: Step
    var record: Record

    ghost predicate Consistent()
      reads this
    {
      Filled(record, step)
    }

    constructor ()
      ensures step == Ended && record == Cleared && Consistent()
    {
      step := Ended;
      record := Cleared;
    }

    /** `cancel_book_operation`: clears the record and ends. */
    method Cancel() returns (r: Step)
      modifies this
      ensures r == Ended && step == Ended && record == Cleared
    {
      record := Cleared;
      step := Ended;
      r := Ended;
    }

    /** `add_book_start`: non-administrators are turned away with the record
        untouched; an administrator starts from a cleared record. */
    method AddBookStart(userId: int, admins: seq<int>) returns (r: Step)
      modifies this
      ensures !IsAdmin(userId, admins) ==> r == Ended && step == Ended && record == old(record)
      ensures IsAdmin(userId, admins) ==> r == BookTitle && step == BookTitle && record == Cleared
      ensures Consistent()
    {
      if userId !in admins {
        step := Ended;
        return Ended;
      }
      record := Cleared;
      step := BookTitle;
      r := BookTitle;
    }

    /** `add_book_title`: a stripped title of 2 to 255 characters is stored;
        any other is asked for again. */
    method AddBookTitle(text: string) returns (r: Step)
      modifies this
      ensures var t := Strip(text);
        && (TitleMin <= |t| <= TitleMax ==>
              r == BookAuthor && step == BookAuthor && record == old(record).(title := Some(t)))
        && (!(TitleMin <= |t| <= TitleMax) ==> r == BookTitle && step == BookTitle && record == old(record))
      ensures Consistent()
    {
      var title := Strip(text);
      if |title| < TitleMin || |title| > TitleMax {
        step := BookTitle;
        return BookTitle;
      }
      record := record.(title := Some(title));
      step := BookAuthor;
      r := BookAuthor;
    }

    /** `add_book_author`: a stripped author of at least 2 characters is stored
        (there is no upper bound here); then the title is read back. */
    method AddBookAuthor(text: string) returns (r: Outcome<Step>)
      modifies this
      ensures var a := Strip(text);
        && (|a| < AuthorMin ==> r == Ok(BookAuthor) && step == BookAuthor && record == old(record))
        && (|a| >= AuthorMin ==> record == old(record).(author := Some(a)))
        && (|a| >= AuthorMin && old(record).title.Some? ==> r == Ok(BookPrice) && step == BookPrice)
        && (|a| >= AuthorMin && old(record).title.None? ==> r == Raised(KeyError) && step == old(step))
      ensures old(step) == BookAuthor && old(Consistent()) ==> r.Ok? && Consistent()
    {
      var author := Strip(text);
      if |author| < AuthorMin {
        step := BookAuthor;
        return Ok(BookAuthor);
      }
      record := record.(author := Some(author));
      if record.title.None? {
        return Raised(KeyError);
      }
      step := BookPrice;
      r := Ok(BookPrice);
    }

    /** `add_book_price`. `parsed` is `float()` of the stripped text (None when it
        raises). A missing or non-positive price is asked for again. A valid one
        is stored; with no category in the store the dialogue ends (the record is
        not cleared); otherwise the categories are cached for the next step. */
    method AddBookPrice(parsed: Option<real>, store: Crud.Store) returns (r: Outcome<Step>)
      requires store.Valid()
      modifies this
      ensures parsed.None? || parsed.value <= 0.0 ==> r == Ok(BookPrice) && step == BookPrice && record == old(record)
      ensures parsed.Some? && parsed.value > 0.0 ==>
        && record.price == Some(parsed.value)
        && (r == Ok(Ended) <==> store.categories == map[])
        && (r == Ok(Ended) ==> step == Ended && record == old(record).(price := Some(parsed.value)))
        && (store.categories != map[] ==>
              && record == old(record).(price := Some(parsed.value), categories := record.categories)
              && record.categories.Some?
              && (forall c :: c in record.categories.value <==> c.id in store.categories && store.categories[c.id] == c)
              && (r == Raised(KeyError) <==> old(record).title.None? || old(record).author.None?)
              && (r.Ok? ==> r == Ok(BookCategory) && step == BookCategory))
      ensures old(step) == BookPrice && old(Consistent()) ==> r.Ok? && Consistent()
    {
      if parsed.None? || parsed.value <= 0.0 {
        step := BookPrice;
        return Ok(BookPrice);
      }
      record := record.(price := Some(parsed.value));
      var categories := store.AllCategories();
      assert forall k :: k in store.categories ==> store.categories[k] in categories;
      if categories == [] {
        step := Ended;
        return Ok(Ended);
      }
      assert categories[0] in categories;
      record := record.(categories := Some(categories));
      if record.title.None? || record.author.None? {
        return Raised(KeyError);
      }
      step := BookCategory;
      r := Ok(BookCategory);
    }

    /** `add_book_category`: cancel, or the category id in field 2 of the
        callback (a malformed callback raises). An id that is not among the cached
        categories ends the dialogue without clearing; a cached one is stored with
        its name. */
    method AddBookCategory(data: string) returns (r: Outcome<Step>)
      modifies this
      ensures data == CancelData ==> r == Ok(Ended) && step == Ended && record == Cleared
      ensures data != CancelData && FieldInt(data, 2).Raised? ==>
        r == Raised(FieldInt(data, 2).error) && step == old(step) && record == old(record)
      ensures data != CancelData && FieldInt(data, 2).Ok? ==>
        var id := FieldInt(data, 2).value;
        var found := FirstWithId(old(record).categories.GetOr([]), id);
        && (found.None? ==> r == Ok(Ended) && step == Ended && record == old(record))
        && (found.Some? ==> record == old(record).(categoryId := Some(id), categoryName := Some(found.value.name)))
        && (found.Some? && r.Ok? ==> r == Ok(BookDescription) && step == BookDescription)
        && (found.Some? ==> (r == Raised(KeyError) <==>
              old(record).title.None? || old(record).author.None? || old(record).price.None?))
      ensures old(step) == BookCategory && old(Consistent()) && r.Ok? ==> Consistent()
    {
      if data == CancelData {
        var ended := Cancel();
        return Ok(ended);
      }
      var parsed := FieldInt(data, 2);
      if parsed.Raised? {
        return Raised(parsed.error);
      }
      var id := parsed.value;
      var found := FirstWithId(record.categories.GetOr([]), id);
      if found.None? {
        step := Ended;
        return Ok(Ended);
      }
      record := record.(categoryId := Some(id), categoryName := Some(found.value.name));
      if record.title.None? || record.author.None? || record.price.None? {
        return Raised(KeyError);
      }
      step := BookDescription;
      r := Ok(BookDescription);
    }

    /** `add_book_description`: cancel; skip stores None; a stripped text over
        2000 characters is asked for again; any other text is stored. */
    method AddBookDescription(input: Input) returns (r: Outcome<Step>)
      modifies this
      ensures input == Pressed(CancelData) ==> r == Ok(Ended) && step == Ended && record == Cleared
      ensures input.Typed? && |Strip(input.text)| > DescriptionMax ==>
        r == Ok(BookDescription) && step == BookDescription && record == old(record)
      ensures input != Pressed(CancelData) && !(input.Typed? && |Strip(input.text)| > DescriptionMax) ==>
        var d := if input.Typed? then Some(Strip(input.text)) else None;
        && record == old(record).(description := Some(d))
        && (r == Raised(KeyError) <==> !SummaryKeys(old(record)))
        && (r.Ok? ==> r == Ok(BookGenres) && step == BookGenres)
      ensures old(step) == BookDescription && old(Consistent()) ==> r.Ok? && Consistent()
    {
      var description: Option<string>;
      match input {
        case Pressed(data) =>
          if data == CancelData {
            var ended := Cancel();
            return Ok(ended);
          }
          description := None;
        case Typed(text) =>
          var d := Strip(text);
          if |d| > DescriptionMax {
            step := BookDescription;
            return Ok(BookDescription);
          }
          description := Some(d);
      }
      record := record.(description := Some(description));
      if !SummaryKeys(record) {
        return Raised(KeyError);
      }
      step := BookGenres;
      r := Ok(BookGenres);
    }

    /** `add_book_genres`: cancel; skip stores []; typed text is parsed into
        genres. */
    method AddBookGenres(input: Input) returns (r: Outcome<Step>)
      modifies this
      ensures input == Pressed(CancelData) ==> r == Ok(Ended) && step == Ended && record == Cleared
      ensures input != Pressed(CancelData) ==>
        var g := if input.Typed? then ParseGenres(input.text) else [];
        && record == old(record).(genres := Some(g))
        && (r == Raised(KeyError) <==> !SummaryKeys(old(record)))
        && (r.Ok? ==> r == Ok(BookConfirm) && step == BookConfirm)
      ensures old(step) == BookGenres && old(Consistent()) ==> r.Ok? && Consistent()
    {
      var genres: seq<string>;
      match input {
        case Pressed(data) =>
          if data == CancelData {
            var ended := Cancel();
            return Ok(ended);
          }
          genres := [];
        case Typed(text) =>
          genres := ParseGenres(text);
      }
      record := record.(genres := Some(genres));
      if !SummaryKeys(record) {
        return Raised(KeyError);
      }
      step := BookConfirm;
      r := Ok(BookConfirm);
    }

    /** `add_book_confirm`: cancel, or create the book as new and available. A
        record missing a required key raises before anything happens; otherwise
        every exit (stored, or refused by the database) clears the record and
        ends. */
    method AddBookConfirm(data: string, store: Crud.Store) returns (r: Outcome<Step>)
      requires store.Valid()
      modifies this, store
      ensures store.Valid()
      ensures data == CancelData ==> r == Ok(Ended) && step == Ended && record == Cleared && store.books == old(store.books)
      ensures data != CancelData && !ReadyToCreate(old(record)) ==>
        r == Raised(KeyError) && step == old(step) && record == old(record) && store.books == old(store.books)
      ensures data != CancelData && ReadyToCreate(old(record)) ==>
        var rec := old(record);
        var b := Book(old(store.nextBookId), rec.title.value, rec.author.value, rec.description.GetOr(None),
                      rec.price.value, None, rec.genres.GetOr([]), true, true, rec.categoryId.value);
        && r == Ok(Ended) && step == Ended && record == Cleared
        && (StoredBook(b).Some? && b.price >= 0.0 && b.categoryId in old(store.categories) ==>
              store.books == old(store.books)[b.id := StoredBook(b).value])
        && (!(StoredBook(b).Some? && b.price >= 0.0 && b.categoryId in old(store.categories)) ==>
              store.books == old(store.books))
      ensures store.users == old(store.users) && store.categories == old(store.categories)
      ensures store.bookings == old(store.bookings)
      ensures old(step) == BookConfirm && old(ReadyToCreate(record)) ==> r.Ok?
    {
      if data == CancelData {
        var ended := Cancel();
        return Ok(ended);
      }
      if !ReadyToCreate(record) {
        return Raised(KeyError);
      }
      var created := store.CreateBook(record.title.value, record.author.value, record.price.value,
                                      record.categoryId.value, record.description.GetOr(None), None,
                                      record.genres.GetOr([]), true, true);
      record := Cleared;
      step := Ended;
      r := Ok(Ended);
    }

    /** `delete_book_start`: administrators only; the record is not cleared. */
    method DeleteBookStart(userId: int, admins: seq<int>) returns (r: Step)
      modifies this
      ensures record == old(record)
      ensures r == step && (r == BookIdForDelete <==> IsAdmin(userId, admins))
      ensures r == Ended || r == BookIdForDelete
      ensures Consistent()
    {
      if userId !in admins {
        step := Ended;
        return Ended;
      }
      step := BookIdForDelete;
      r := BookIdForDelete;
    }

    /** `delete_book_get_id`: a number naming a stored book is kept for the
        confirmation; anything else is asked for again. */
    method DeleteBookGetId(text: string, store: Crud.Store) returns (r: Step)
      modifies this
      ensures var id := ParseInt(Strip(text));
        && (r == BookConfirm <==> id.Ok? && id.value in store.books)
        && (r == BookConfirm ==> record == old(record).(deleteBookId := Some(id.value)))
        && (r != BookConfirm ==> r == BookIdForDelete && record == old(record))
        && step == r
      ensures Consistent()
    {
      var parsed := ParseInt(Strip(text));
      if parsed.Raised? {
        step := BookIdForDelete;
        return BookIdForDelete;
      }
      var book := store.BookById(parsed.value);
      if book.None? {
        step := BookIdForDelete;
        return BookIdForDelete;
      }
      record := record.(deleteBookId := Some(parsed.value));
      step := BookConfirm;
      r := BookConfirm;
    }

    /** `delete_book_confirm`: cancel; without a (non-zero) kept id the dialogue
        ends with the record untouched; otherwise the store is asked to delete the
        book (which it refuses while the book has an active booking), and the
        record is cleared. */
    method DeleteBookConfirm(data: string, store: Crud.Store) returns (r: Step)
      requires store.Valid()
      modifies this, store
      ensures store.Valid()
      ensures r == Ended && step == Ended
      ensures data == CancelData ==>
        record == Cleared && store.books == old(store.books) && store.bookings == old(store.bookings)
      ensures data != CancelData ==>
        var id := old(record).deleteBookId;
        && (id.None? || id.value == 0 ==>
              record == old(record) && store.books == old(store.books) && store.bookings == old(store.bookings))
        && (id.Some? && id.value != 0 ==>
              && record == Cleared
              && (id.value in old(store.books) && !HasActiveForBook(old(store.bookings), id.value) ==>
                    && store.books == old(store.books) - {id.value}
                    && store.bookings == DropBookBookings(old(store.bookings), {id.value}))
              && (!(id.value in old(store.books) && !HasActiveForBook(old(store.bookings), id.value)) ==>
                    store.books == old(store.books) && store.bookings == old(store.bookings)))
      ensures store.users == old(store.users) && store.categories == old(store.categories)
    {
      if data == CancelData {
        r := Cancel();
        return;
      }
      var id := record.deleteBookId;
      if id.None? || id.value == 0 {
        step := Ended;
        return Ended;
      }
      var deleted := store.DeleteBook(id.value);
      record := Cleared;
      step := Ended;
      r := Ended;
    }
  }
}
