/** The CRUD layer of the catalogue as one in-memory store. Each operation of the
    repository's data-access module is a method that reads or rewrites the tables
    the way one short database session does; `Valid()` collects the schema's
    constraints together with the rule that a (user, book) pair has at most one
    active booking. */
module Crud {
  import opened Wrappers
  import opened Models

  // ---------------------------------------------------------------------------
  // Query results ordered by pickup date
  // ---------------------------------------------------------------------------

  predicate SortedByDate(s: seq<Booking>) {
    forall i, j :: 0 <= i < j < |s| ==> s[i].pickupDate <= s[j].pickupDate
  }

  /** No booking appears twice in a query result. */
  predicate DistinctIds(s: seq<Booking>) {
    forall i, j :: 0 <= i < j < |s| ==> s[i].id != s[j].id
  }

  /** Place one booking into a list ordered by ascending pickup date. */
  function InsertByDate(s: seq<Booking>, b: Booking): (r: seq<Booking>)
    ensures |r| == |s| + 1
    ensures forall x :: x in r <==> x in s || x == b
    ensures SortedByDate(s) ==> SortedByDate(r)
    decreases |s|
  {
    if s == [] || b.pickupDate <= s[0].pickupDate then [b] + s
    else
      var rest := InsertByDate(s[1..], b);
      assert forall x :: x in rest ==> x in s[1..] || x == b;
      assert SortedByDate(s) ==> forall x :: x in s[1..] ==> s[0].pickupDate <= x.pickupDate;
      [s[0]] + rest
  }

  /** Inserting a booking whose id is not yet listed keeps every id listed once. */
  lemma {:induction false} InsertByDateDistinct(s: seq<Booking>, b: Booking)
    requires DistinctIds(s) && forall x :: x in s ==> x.id != b.id
    ensures DistinctIds(InsertByDate(s, b))
    decreases |s|
  {
    if s == [] || b.pickupDate <= s[0].pickupDate {
      assert forall k :: 0 <= k < |s| ==> s[k] in s;
    } else {
      var rest := InsertByDate(s[1..], b);
      assert forall x :: x in s[1..] ==> x in s;
      InsertByDateDistinct(s[1..], b);
      assert forall x :: x in s[1..] ==> s[0].id != x.id;
      assert s[0].id != b.id;
      assert forall k :: 0 <= k < |rest| ==> rest[k] in rest;
    }
  }

  predicate StatusMatches(b: Booking, status: Option<Status>) {
    status.None? || b.status == status.value
  }

  /** The two booking queries that scan the table: a user's bookings (optionally of
      one status), and the active bookings due on one day. */
  datatype Query = OfUser(userId: int, status: Option<Status>) | DueOn(day: int)

  predicate Selects(q: Query, b: Booking) {
    match q
    case OfUser(u, s) => b.userId == u && StatusMatches(b, s)
    case DueOn(d) => b.status == Active && b.pickupDate == d
  }

  /** The ids a query selects. */
  function Selected(bookings: map<int, Booking>, q: Query): set<int> {
    set j | j in bookings && Selects(q, bookings[j])
  }

  /** The ids a query selects among those below `bound`. */
  function SelectedBelow(bookings: map<int, Booking>, q: Query, bound: int): set<int> {
    set j | j in bookings && j < bound && Selects(q, bookings[j])
  }

  lemma SelectedStep(bookings: map<int, Booking>, q: Query, k: int)
    ensures SelectedBelow(bookings, q, k + 1)
         == SelectedBelow(bookings, q, k) + (if k in bookings && Selects(q, bookings[k]) then {k} else {})
  {
  }

  /** Each step adds at most the one new id. */
  lemma SelectedStepSize(bookings: map<int, Booking>, q: Query, k: int)
    ensures |SelectedBelow(bookings, q, k + 1)|
         == |SelectedBelow(bookings, q, k)| + (if k in bookings && Selects(q, bookings[k]) then 1 else 0)
  {
    SelectedStep(bookings, q, k);
    assert k !in SelectedBelow(bookings, q, k);
  }

  lemma SelectedAll(bookings: map<int, Booking>, q: Query, bound: int)
    requires forall j :: j in bookings ==> j < bound
    ensures SelectedBelow(bookings, q, bound) == Selected(bookings, q)
  {
  }

  /** The rows kept below `k`, and one more step of the scan. */
  ghost predicate ScannedBelow(bookings: map<int, Booking>, q: Query, k: int, r: seq<Booking>) {
    && (forall b :: b in r <==> b.id in SelectedBelow(bookings, q, k) && b.id in bookings && bookings[b.id] == b)
    && |r| == |SelectedBelow(bookings, q, k)|
  }

  lemma ScanStep(bookings: map<int, Booking>, next: int, q: Query, k: int, r: seq<Booking>)
    requires BookingsKeyed(bookings, next) && 1 <= k
    requires ScannedBelow(bookings, q, k, r)
    ensures ScannedBelow(bookings, q, k + 1,
      if k in bookings && Selects(q, bookings[k]) then r + [bookings[k]] else r)
  {
    SelectedStep(bookings, q, k);
    SelectedStepSize(bookings, q, k);
    if k in bookings && Selects(q, bookings[k]) {
      var b := bookings[k];
      assert b !in r;
      assert forall x :: x in r + [b] <==> x in r || x == b;
    }
  }

  /** A scan of the bookings table in id order, keeping the rows a query selects:
      each selected row once, nothing else. */
  method ScanSelected(bookings: map<int, Booking>, next: int, q: Query) returns (r: seq<Booking>)
    requires BookingsKeyed(bookings, next) && 0 < next
    ensures forall b :: b in r <==> b.id in bookings && bookings[b.id] == b && Selects(q, b)
    ensures |r| == |Selected(bookings, q)|
  {
    var k := 1;
    r := [];
    while k < next
      invariant 1 <= k <= next
      invariant ScannedBelow(bookings, q, k, r)
    {
      ScanStep(bookings, next, q, k, r);
      if k in bookings && Selects(q, bookings[k]) {
        r := r + [bookings[k]];
      }
      k := k + 1;
    }
    SelectedAll(bookings, q, next);
  }

  /** Flip one user's notification flag. */
  function ToggleNotifications(users: map<int, User>, k: int): (r: map<int, User>)
    requires k in users
    ensures r.Keys == users.Keys
    ensures r[k] == users[k].(notificationsEnabled := !users[k].notificationsEnabled)
    ensures forall j :: j in users && j != k ==> r[j] == users[j]
  {
    users[k := users[k].(notificationsEnabled := !users[k].notificationsEnabled)]
  }

  /** Toggling twice restores the original table. */
  lemma ToggleTwice(users: map<int, User>, k: int)
    requires k in users
    ensures ToggleNotifications(ToggleNotifications(users, k), k) == users
  {
    var once := ToggleNotifications(users, k);
    var twice := ToggleNotifications(once, k);
    assert twice[k] == users[k];
  }

  class Store {
    var users: map<int, User>
    var categories: map<int, Category>
    var books: map<int, Book>
    var bookings: map<int, Booking>
    // the autoincrement counters of the four tables
    var nextUserId: int
    var nextCategoryId: int
    var nextBookId: int
    var nextBookingId: int

    ghost predicate Valid()
      reads this
    {
      && 0 < nextUserId && 0 < nextCategoryId && 0 < nextBookId && 0 < nextBookingId
      && UsersKeyed(users, nextUserId)
      && CategoriesKeyed(categories, nextCategoryId)
      && BooksKeyed(books, nextBookId)
      && BookingsKeyed(bookings, nextBookingId)
      && UniqueTelegramIds(users)
      && UserNamesFit(users)
      && CategoriesValid(categories)
      && BooksValid(books, categories)
      && BookingsReferToRows(bookings, users, books)
      && AtMostOneActive(bookings)
    }

    constructor ()
      ensures Valid()
      ensures users == map[] && categories == map[] && books == map[] && bookings == map[]
    {
      users, categories, books, bookings := map[], map[], map[], map[];
      nextUserId, nextCategoryId, nextBookId, nextBookingId := 1, 1, 1, 1;
    }

    // -------------------------------------------------------------------------
    // Users
    // -------------------------------------------------------------------------

    predicate HasUser(telegramId: int)
      reads this
    {
      exists k :: k in users && users[k].telegramId == telegramId
    }

    /** The internal id of the user with this Telegram id (unique while Valid()). */
    ghost function UserKey(telegramId: int): (k: int)
      reads this
      requires HasUser(telegramId)
      ensures k in users && users[k].telegramId == telegramId
    {
      var k :| k in users && users[k].telegramId == telegramId; k
    }

    /** `get_user_by_telegram_id`: the unique user with that Telegram id, if any. */
    method UserByTelegramId(telegramId: int) returns (u: Option<User>)
      requires Valid()
      ensures u.Some? <==> HasUser(telegramId)
      ensures u.Some? ==> u.value.id == UserKey(telegramId) && users[u.value.id] == u.value
    {
      // scan the primary key range in ascending order
      var k := 1;
      while k < nextUserId
        invariant 1 <= k <= nextUserId
        invariant forall j :: j in users && j < k ==> users[j].telegramId != telegramId
      {
        if k in users && users[k].telegramId == telegramId {
          return Some(users[k]);
        }
        k := k + 1;
      }
      return None;
    }

    /** `create_user`: an upsert keyed on the Telegram id. A name wider than the
        column makes the commit fail, for an update and an insert alike. */
    method CreateUser(telegramId: int, name: string, favoriteGenres: Option<seq<string>>) returns (r: Outcome<User>)
      requires Valid()
      modifies this
      ensures Valid()
      ensures r.Raised? <==> Varchar(name, UserNameWidth).None?
      ensures r.Raised? ==> r.error == DataError && users == old(users) && nextUserId == old(nextUserId)
      ensures r.Ok? ==> var u := r.value;
        && u.telegramId == telegramId && u.name == Varchar(name, UserNameWidth).value
        && u.id in users && users[u.id] == u
      ensures r.Ok? && old(HasUser(telegramId)) ==>
        var was := old(users[UserKey(telegramId)]);
        && r.value == was.(name := Varchar(name, UserNameWidth).value,
                           favoriteGenres := favoriteGenres.GetOr(was.favoriteGenres))
        && users == old(users)[was.id := r.value] && nextUserId == old(nextUserId)
      ensures r.Ok? && !old(HasUser(telegramId)) ==>
        && r.value == NewUser(old(nextUserId), telegramId, Varchar(name, UserNameWidth).value,
                              favoriteGenres.GetOr([]))
        && users == old(users)[r.value.id := r.value] && nextUserId == old(nextUserId) + 1
      ensures categories == old(categories) && books == old(books) && bookings == old(bookings)
      ensures nextCategoryId == old(nextCategoryId) && nextBookId == old(nextBookId)
      ensures nextBookingId == old(nextBookingId)
    {
      var found := UserByTelegramId(telegramId);
      var stored := Varchar(name, UserNameWidth);
      if stored.None? {
        return Raised(DataError);
      }
      var u: User;
      if found.Some? {
        var was := found.value;
        u := was.(name := stored.value, favoriteGenres := favoriteGenres.GetOr(was.favoriteGenres));
        users := users[was.id := u];
      } else {
        u := NewUser(nextUserId, telegramId, stored.value, favoriteGenres.GetOr([]));
        users := users[u.id := u];
        nextUserId := nextUserId + 1;
      }
      r := Ok(u);
    }

    /** `update_user_genres`: replace the genre list of a known user. */
    method UpdateUserGenres(telegramId: int, genres: seq<string>) returns (u: Option<User>)
      requires Valid()
      modifies this
      ensures Valid()
      ensures u.Some? <==> old(HasUser(telegramId))
      ensures u.Some? ==>
        && u.value == old(users[UserKey(telegramId)]).(favoriteGenres := genres)
        && users == old(users)[u.value.id := u.value]
      ensures u.None? ==> users == old(users)
      ensures categories == old(categories) && books == old(books) && bookings == old(bookings)
      ensures nextUserId == old(nextUserId) && nextCategoryId == old(nextCategoryId)
      ensures nextBookId == old(nextBookId) && nextBookingId == old(nextBookingId)
    {
      var found := UserByTelegramId(telegramId);
      if found.Some? {
        var updated := found.value.(favoriteGenres := genres);
        users := users[updated.id := updated];
        u := Some(updated);
      } else {
        u := None;
      }
    }

    /** `toggle_user_notifications`: negate the flag and return its new value. */
    method ToggleUserNotifications(telegramId: int) returns (r: Option<bool>)
      requires Valid()
      modifies this
      ensures Valid()
      ensures r.Some? <==> old(HasUser(telegramId))
      ensures r.Some? ==>
        && users == ToggleNotifications(old(users), old(UserKey(telegramId)))
        && r.value == !old(users[UserKey(telegramId)].notificationsEnabled)
      ensures r.None? ==> users == old(users)
      ensures categories == old(categories) && books == old(books) && bookings == old(bookings)
      ensures nextUserId == old(nextUserId) && nextCategoryId == old(nextCategoryId)
      ensures nextBookId == old(nextBookId) && nextBookingId == old(nextBookingId)
    {
      var found := UserByTelegramId(telegramId);
      if found.Some? {
        users := ToggleNotifications(users, found.value.id);
        r := Some(users[found.value.id].notificationsEnabled);
      } else {
        r := None;
      }
    }

    /** `delete_user`: the user's bookings are deleted with it (cascade). */
    method DeleteUser(telegramId: int) returns (deleted: bool)
      requires Valid()
      modifies this
      ensures Valid()
      ensures deleted <==> old(HasUser(telegramId))
      ensures deleted ==>
        && users == old(users) - {old(UserKey(telegramId))}
        && bookings == DropUserBookings(old(bookings), old(UserKey(telegramId)))
      ensures !deleted ==> users == old(users) && bookings == old(bookings)
      ensures categories == old(categories) && books == old(books)
      ensures nextUserId == old(nextUserId) && nextCategoryId == old(nextCategoryId)
      ensures nextBookId == old(nextBookId) && nextBookingId == old(nextBookingId)
    {
      var found := UserByTelegramId(telegramId);
      if found.Some? {
        var id := found.value.id;
        UserCascadeKeepsReferences(bookings, users, books, id);
        users := users - {id};
        bookings := DropUserBookings(bookings, id);
        deleted := true;
      } else {
        deleted := false;
      }
    }

    // -------------------------------------------------------------------------
    // Categories
    // -------------------------------------------------------------------------

    /** Some category other than `except` already carries this name. */
    predicate CategoryNameTaken(name: string, except: int)
      reads this
    {
      exists k :: k in categories && k != except && categories[k].name == name
    }

    /** `create_category`: a too-long name or emoji, or a name already in use,
        makes the database refuse the insert. */
    method CreateCategory(name: string, emoji: string, description: Option<string>) returns (r: Outcome<Category>)
      requires Valid()
      modifies this
      ensures Valid()
      ensures Varchar(name, CategoryNameWidth).None? || Varchar(emoji, EmojiWidth).None? ==> r == Raised(DataError)
      ensures Varchar(name, CategoryNameWidth).Some? && Varchar(emoji, EmojiWidth).Some?
        && old(CategoryNameTaken(Varchar(name, CategoryNameWidth).value, 0))
        ==> r == Raised(IntegrityError)
      ensures r.Ok? <==>
        && Varchar(name, CategoryNameWidth).Some? && Varchar(emoji, EmojiWidth).Some?
        && !old(CategoryNameTaken(Varchar(name, CategoryNameWidth).value, 0))
      ensures r.Raised? ==> categories == old(categories) && nextCategoryId == old(nextCategoryId)
      ensures r.Ok? ==>
        && r.value == Category(old(nextCategoryId), Varchar(name, CategoryNameWidth).value,
                               Varchar(emoji, EmojiWidth).value, description)
        && categories == old(categories)[r.value.id := r.value]
        && nextCategoryId == old(nextCategoryId) + 1
      ensures users == old(users) && books == old(books) && bookings == old(bookings)
      ensures nextUserId == old(nextUserId) && nextBookId == old(nextBookId)
      ensures nextBookingId == old(nextBookingId)
    {
      var storedName, storedEmoji := Varchar(name, CategoryNameWidth), Varchar(emoji, EmojiWidth);
      if storedName.None? || storedEmoji.None? {
        return Raised(DataError);
      }
      if CategoryNameTaken(storedName.value, 0) {
        return Raised(IntegrityError);
      }
      var c := Category(nextCategoryId, storedName.value, storedEmoji.value, description);
      categories := categories[c.id := c];
      nextCategoryId := nextCategoryId + 1;
      r := Ok(c);
    }

    /** `update_category`: each given field replaces the stored one; an unknown id
        yields None; a clash with another category's name is refused. */
    method UpdateCategory(id: int, name: Option<string>, emoji: Option<string>, description: Option<string>)
      returns (r: Outcome<Option<Category>>)
      requires Valid()
      modifies this
      ensures Valid()
      ensures id !in old(categories) ==> r == Ok(None)
      ensures id in old(categories) && r.Ok? ==> r.value.Some?
      ensures r.Raised? || r == Ok(None) ==> categories == old(categories)
      ensures id in old(categories) ==>
        var n := Varchar(name.GetOr(old(categories[id].name)), CategoryNameWidth);
        (r.Raised? <==>
           || n.None?
           || Varchar(emoji.GetOr(old(categories[id].emoji)), EmojiWidth).None?
           || old(CategoryNameTaken(n.value, id)))
      ensures r.Ok? && r.value.Some? ==>
        var was := old(categories[id]);
        && r.value.value == was.(name := Varchar(name.GetOr(was.name), CategoryNameWidth).value,
                                 emoji := Varchar(emoji.GetOr(was.emoji), EmojiWidth).value,
                                 description := if description.Some? then description else was.description)
        && categories == old(categories)[id := r.value.value]
      ensures users == old(users) && books == old(books) && bookings == old(bookings)
      ensures nextUserId == old(nextUserId) && nextCategoryId == old(nextCategoryId)
      ensures nextBookId == old(nextBookId) && nextBookingId == old(nextBookingId)
    {
      if id !in categories {
        return Ok(None);
      }
      var was := categories[id];
      var storedName := Varchar(name.GetOr(was.name), CategoryNameWidth);
      var storedEmoji := Varchar(emoji.GetOr(was.emoji), EmojiWidth);
      if storedName.None? || storedEmoji.None? {
        return Raised(DataError);
      }
      var c := was.(name := storedName.value, emoji := storedEmoji.value,
                    description := if description.Some? then description else was.description);
      if CategoryNameTaken(c.name, id) {
        return Raised(IntegrityError);
      }
      categories := categories[id := c];
      r := Ok(Some(c));
    }

    /** `delete_category`: the category's books go with it, and their bookings with them. */
    method DeleteCategory(id: int) returns (deleted: bool)
      requires Valid()
      modifies this
      ensures Valid()
      ensures deleted <==> id in old(categories)
      ensures deleted ==>
        && categories == old(categories) - {id}
        && books == DropCategoryBooks(old(books), id)
        && bookings == DropBookBookings(old(bookings), set k | k in old(books) && old(books)[k].categoryId == id)
      ensures !deleted ==> categories == old(categories) && books == old(books) && bookings == old(bookings)
      ensures users == old(users)
      ensures nextUserId == old(nextUserId) && nextCategoryId == old(nextCategoryId)
      ensures nextBookId == old(nextBookId) && nextBookingId == old(nextBookingId)
    {
      if id !in categories {
        return false;
      }
      var gone := set k | k in books && books[k].categoryId == id;
      CategoryCascadeKeepsReferences(bookings, users, books, categories, id);
      categories := categories - {id};
      books := DropCategoryBooks(books, id);
      bookings := DropBookBookings(bookings, gone);
      deleted := true;
    }

    // -------------------------------------------------------------------------
    // Books
    // -------------------------------------------------------------------------

    /** `create_book`. A title, author or cover id its column refuses, a negative price
        (CHECK) or an unknown category (FOREIGN KEY) makes the insert fail. The `isAvailable`
        argument is not used: every new book is stored as available. */
    method CreateBook(title: string, author: string, price: real, categoryId: int,
                      description: Option<string>, coverPhotoId: Option<string>,
                      genres: seq<string>, isNew: bool, isAvailable: bool)
      returns (r: Outcome<Book>)
      requires Valid()
      modifies this
      ensures Valid()
      ensures var b := Book(old(nextBookId), title, author, description, price, coverPhotoId,
                            genres, true, isNew, categoryId);
        && (StoredBook(b).None? ==> r == Raised(DataError))
        && (r.Ok? <==> StoredBook(b).Some? && price >= 0.0 && categoryId in old(categories))
        && (r.Ok? ==> r.value == StoredBook(b).value)
      ensures r.Raised? ==> books == old(books) && nextBookId == old(nextBookId)
      ensures r.Ok? ==>
        && books == old(books)[r.value.id := r.value]
        && nextBookId == old(nextBookId) + 1
      ensures users == old(users) && categories == old(categories) && bookings == old(bookings)
      ensures nextUserId == old(nextUserId) && nextCategoryId == old(nextCategoryId)
      ensures nextBookingId == old(nextBookingId)
    {
      var stored := StoredBook(Book(nextBookId, title, author, description, price, coverPhotoId,
                                    genres, true, isNew, categoryId));
      if stored.None? {
        return Raised(DataError);
      }
      if price < 0.0 || categoryId !in categories {
        return Raised(IntegrityError);
      }
      var b := stored.value;
      books := books[b.id := b];
      nextBookId := nextBookId + 1;
      r := Ok(b);
    }

    /** `get_book_by_id`. */
    function BookById(id: int): Option<Book>
      reads this
    {
      if id in books then Some(books[id]) else None
    }

    /** `get_books_count_by_category`: the books of one category, only the
        available ones when `availableOnly` holds. */
    function CategoryBookCount(categoryId: int, availableOnly: bool): nat
      reads this
    {
      |set k | k in books && books[k].categoryId == categoryId && (!availableOnly || books[k].isAvailable)|
    }

    /** `get_category_by_id`. */
    function CategoryById(id: int): Option<Category>
      reads this
    {
      if id in categories then Some(categories[id]) else None
    }

    /** `get_all_categories`: every stored category exactly once (here in id order;
        the sorting by name is not modelled). */
    method AllCategories() returns (r: seq<Category>)
      requires Valid()
      ensures forall c :: c in r <==> c.id in categories && categories[c.id] == c
      ensures forall i, j :: 0 <= i < j < |r| ==> r[i].id < r[j].id
    {
      r := [];
      var k := 1;
      while k < nextCategoryId
        invariant 1 <= k <= nextCategoryId
        invariant forall c :: c in r <==> c.id in categories && categories[c.id] == c && c.id < k
        invariant forall i, j :: 0 <= i < j < |r| ==> r[i].id < r[j].id
        invariant forall i :: 0 <= i < |r| ==> r[i].id < k
      {
        if k in categories {
          r := r + [categories[k]];
        }
        k := k + 1;
      }
    }

    /** `delete_book`: refused for a missing book or one with an active booking;
        otherwise the book and its (inactive) bookings are removed. */
    method DeleteBook(id: int) returns (deleted: bool)
      requires Valid()
      modifies this
      ensures Valid()
      ensures deleted <==> id in old(books) && !HasActiveForBook(old(bookings), id)
      ensures deleted ==>
        && books == old(books) - {id}
        && bookings == DropBookBookings(old(bookings), {id})
      ensures !deleted ==> books == old(books) && bookings == old(bookings)
      ensures users == old(users) && categories == old(categories)
      ensures nextUserId == old(nextUserId) && nextCategoryId == old(nextCategoryId)
      ensures nextBookId == old(nextBookId) && nextBookingId == old(nextBookingId)
    {
      if id !in books {
        return false;
      }
      if HasActiveForBook(bookings, id) {
        return false;
      }
      BookCascadeKeepsReferences(bookings, users, books, {id});
      books := books - {id};
      bookings := DropBookBookings(bookings, {id});
      deleted := true;
    }

    // -------------------------------------------------------------------------
    // Bookings
    // -------------------------------------------------------------------------

    /** `create_booking`: refused (None, nothing stored) for an unknown user, an
        unknown or unavailable book, or a pair that already has an active booking;
        otherwise exactly one active booking is added. */
    method CreateBooking(telegramId: int, bookId: int, pickupDate: int, comment: Option<string>)
      returns (r: Option<Booking>)
      requires Valid()
      modifies this
      ensures Valid()
      ensures r.Some? <==>
        && old(HasUser(telegramId))
        && bookId in old(books) && old(books[bookId].isAvailable)
        && !HasActive(old(bookings), old(UserKey(telegramId)), bookId)
      ensures r.None? ==> bookings == old(bookings) && nextBookingId == old(nextBookingId)
      ensures r.Some? ==>
        && r.value == Booking(old(nextBookingId), old(UserKey(telegramId)), bookId, Active, pickupDate, comment)
        && bookings == old(bookings)[r.value.id := r.value]
        && nextBookingId == old(nextBookingId) + 1
      ensures users == old(users) && categories == old(categories) && books == old(books)
      ensures nextUserId == old(nextUserId) && nextCategoryId == old(nextCategoryId)
      ensures nextBookId == old(nextBookId)
    {
      var user := UserByTelegramId(telegramId);
      if user.None? {
        return None;
      }
      if bookId !in books {
        return None;
      }
      if !books[bookId].isAvailable {
        return None;
      }
      if HasActive(bookings, user.value.id, bookId) {
        return None;
      }
      var b := Booking(nextBookingId, user.value.id, bookId, Active, pickupDate, comment);
      InsertActiveKeepsAtMostOne(bookings, b);
      bookings := bookings[b.id := b];
      nextBookingId := nextBookingId + 1;
      r := Some(b);
    }

    /** `get_booking_by_id`. */
    function BookingById(id: int): Option<Booking>
      reads this
    {
      if id in bookings then Some(bookings[id]) else None
    }

    /** `get_active_booking`: the active booking of this user for this book, if any. */
    method ActiveBooking(telegramId: int, bookId: int) returns (r: Option<Booking>)
      requires Valid()
      ensures r.Some? <==> HasUser(telegramId) && HasActive(bookings, UserKey(telegramId), bookId)
      ensures r.Some? ==>
        r.value.id in bookings && bookings[r.value.id] == r.value && IsActiveFor(r.value, UserKey(telegramId), bookId)
    {
      var user := UserByTelegramId(telegramId);
      if user.None? {
        return None;
      }
      var uid := user.value.id;
      var k := 1;
      while k < nextBookingId
        invariant 1 <= k <= nextBookingId
        invariant forall j :: j in bookings && j < k ==> !IsActiveFor(bookings[j], uid, bookId)
      {
        if k in bookings && IsActiveFor(bookings[k], uid, bookId) {
          return Some(bookings[k]);
        }
        k := k + 1;
      }
      return None;
    }

    /** `get_user_bookings`: exactly that user's bookings (of the given status, when
        one is given), each once, in ascending pickup-date order; [] for an unknown user. */
    method UserBookings(telegramId: int, status: Option<Status>) returns (r: seq<Booking>)
      requires Valid()
      ensures !HasUser(telegramId) ==> r == []
      ensures HasUser(telegramId) ==>
        && (forall b :: b in r <==>
              b.id in bookings && bookings[b.id] == b && b.userId == UserKey(telegramId) && StatusMatches(b, status))
        && |r| == |Selected(bookings, OfUser(UserKey(telegramId), status))|
      ensures SortedByDate(r) && DistinctIds(r)
    {
      var user := UserByTelegramId(telegramId);
      if user.None? {
        return [];
      }
      var q := OfUser(user.value.id, status);
      var k := 1;
      r := [];
      while k < nextBookingId
        invariant 1 <= k <= nextBookingId
        invariant forall b :: b in r <==> b.id in SelectedBelow(bookings, q, k) && bookings[b.id] == b
        invariant |r| == |SelectedBelow(bookings, q, k)|
        invariant SortedByDate(r) && DistinctIds(r)
      {
        SelectedStep(bookings, q, k);
        SelectedStepSize(bookings, q, k);
        if k in bookings && Selects(q, bookings[k]) {
          assert bookings[k] !in r;
          InsertByDateDistinct(r, bookings[k]);
          r := InsertByDate(r, bookings[k]);
        }
        k := k + 1;
      }
      SelectedAll(bookings, q, nextBookingId);
    }

    /** `get_bookings_for_reminder`: the active bookings due `daysBefore` days after today. */
    method BookingsForReminder(today: int, daysBefore: int) returns (r: seq<Booking>)
      requires Valid()
      ensures forall b :: b in r <==>
        b.id in bookings && bookings[b.id] == b && b.status == Active && b.pickupDate == today + daysBefore
      ensures |r| == |Selected(bookings, DueOn(today + daysBefore))|
    {
      r := ScanSelected(bookings, nextBookingId, DueOn(today + daysBefore));
    }

    /** `cancel_booking`: overwrite the status with Cancelled, whatever it was. */
    method CancelBooking(id: int) returns (ok: bool)
      requires Valid()
      modifies this
      ensures Valid()
      ensures ok <==> id in old(bookings)
      ensures ok ==> bookings == WithStatus(old(bookings), id, Cancelled)
      ensures !ok ==> bookings == old(bookings)
      ensures users == old(users) && categories == old(categories) && books == old(books)
      ensures nextUserId == old(nextUserId) && nextCategoryId == old(nextCategoryId)
      ensures nextBookId == old(nextBookId) && nextBookingId == old(nextBookingId)
    {
      ok := id in bookings;
      if ok {
        WithStatusKeepsAtMostOne(bookings, id, Cancelled);
        bookings := WithStatus(bookings, id, Cancelled);
      }
    }

    /** `complete_booking`: overwrite the status with Completed, whatever it was. */
    method CompleteBooking(id: int) returns (ok: bool)
      requires Valid()
      modifies this
      ensures Valid()
      ensures ok <==> id in old(bookings)
      ensures ok ==> bookings == WithStatus(old(bookings), id, Completed)
      ensures !ok ==> bookings == old(bookings)
      ensures users == old(users) && categories == old(categories) && books == old(books)
      ensures nextUserId == old(nextUserId) && nextCategoryId == old(nextCategoryId)
      ensures nextBookId == old(nextBookId) && nextBookingId == old(nextBookingId)
    {
      ok := id in bookings;
      if ok {
        WithStatusKeepsAtMostOne(bookings, id, Completed);
        bookings := WithStatus(bookings, id, Completed);
      }
    }
  }
}
