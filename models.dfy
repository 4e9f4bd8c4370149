/** The four tables of the catalogue (users, categories, books, bookings) as
    records, with the column constraints, defaults and cascades of the schema
    stated as predicates and functions over id-keyed maps. */
module Models {
  import opened Wrappers

  // ---------------------------------------------------------------------------
  // Booking status and its CHECK constraint
  // ---------------------------------------------------------------------------

  datatype Status = Active | Completed | Cancelled

  /** The text stored in the `status` column. */
  function StatusName(s: Status): string {
    match s
    case Active => "active"
    case Completed => "completed"
    case Cancelled => "cancelled"
  }

  /** The CHECK constraint `status IN ('active', 'completed', 'cancelled')`:
      a text is accepted exactly when it names one of the three statuses. */
  function StatusOf(name: string): (r: Option<Status>)
    ensures r.Some? <==> (name == "active" || name == "completed" || name == "cancelled")
    ensures r.Some? ==> StatusName(r.value) == name
  {
    if name == "active" then Some(Active)
    else if name == "completed" then Some(Completed)
    else if name == "cancelled" then Some(Cancelled)
    else None
  }

  /** Every status is stored under a distinct name that the constraint accepts. */
  lemma StatusNameRoundTrip(s: Status)
    ensures StatusOf(StatusName(s)) == Some(s)
  {
  }

  /** The column default of `status`. */
  const DefaultStatus: Status := Active

  // ---------------------------------------------------------------------------
  // Records
  // ---------------------------------------------------------------------------

  datatype User = User(
    id: int,
    telegramId: int,
    name: string,
    favoriteGenres: seq<string>,
    notificationsEnabled: bool)

  datatype Category = Category(
    id: int,
    name: string,
    emoji: string,
    description: Option<string>)

  /** A book; the price is an exact number (the float column's rounding is not modelled). */
  datatype Book = Book(
    id: int,
    title: string,
    author: string,
    description: Option<string>,
    price: real,
    coverPhotoId: Option<string>,
    genres: seq<string>,
    isAvailable: bool,
    isNew: bool,
    categoryId: int)

  /** A booking; pickup dates are day numbers, and a comment may be absent (NULL). */
  datatype Booking = Booking(
    id: int,
    userId: int,
    bookId: int,
    status: Status,
    pickupDate: int,
    comment: Option<string>)

  /** Column widths of the VARCHAR columns. */
  const UserNameWidth: nat := 255
  const TitleWidth: nat := 255
  const AuthorWidth: nat := 255
  const CoverPhotoWidth: nat := 255
  const CategoryNameWidth: nat := 100
  const EmojiWidth: nat := 10

  /** A nullable VARCHAR value fits its column: NULL, or a text within the width. */
  predicate FitsOptional(s: Option<string>, width: nat) {
    s.None? || |s.value| <= width
  }

  /** Column defaults: a new user has no favourite genres and notifications on. */
  function NewUser(id: int, telegramId: int, name: string, genres: seq<string>): (u: User)
    ensures u.id == id && u.telegramId == telegramId && u.name == name
    ensures u.favoriteGenres == genres && u.notificationsEnabled
  {
    User(id, telegramId, name, genres, true)
  }

  // ---------------------------------------------------------------------------
  // Storing a text in a VARCHAR(n) column
  // ---------------------------------------------------------------------------

  /** PostgreSQL's assignment to a VARCHAR(width) column: a text that fits is
      stored as it is; a longer one is cut to the width when every character
      past the width is a space, and refused otherwise. */
  function Varchar(s: string, width: nat): (r: Option<string>)
    ensures r.Some? <==> |s| <= width || forall i :: width <= i < |s| ==> s[i] == ' '
    ensures |s| <= width ==> r == Some(s)
    ensures r.Some? ==> |r.value| <= width && r.value == s[..|r.value|]
    ensures r.Some? ==> forall i :: |r.value| <= i < |s| ==> s[i] == ' '
  {
    if |s| <= width then Some(s)
    else if forall i | width <= i < |s| :: s[i] == ' ' then Some(s[..width])
    else None
  }

  /** A stored text is stored again unchanged, and the only texts stored unchanged
      are those that fit. */
  lemma VarcharStoredIsFixed(s: string, width: nat)
    requires Varchar(s, width).Some?
    ensures Varchar(Varchar(s, width).value, width) == Varchar(s, width)
    ensures Varchar(s, width).value == s <==> |s| <= width
  {
  }

  /** The same for a nullable column: NULL is always accepted. */
  function VarcharOptional(s: Option<string>, width: nat): (r: Option<Option<string>>)
    ensures s.None? ==> r == Some(None)
    ensures s.Some? ==> (r.Some? <==> Varchar(s.value, width).Some?)
    ensures s.Some? && r.Some? ==> r.value == Some(Varchar(s.value, width).value)
  {
    match s
    case None => Some(None)
    case Some(t) =>
      match Varchar(t, width)
      case None => None
      case Some(v) => Some(Some(v))
  }

  /** The row the database stores for a book: each VARCHAR field assigned to its
      column, and nothing else changed; None when one of them is refused. */
  function StoredBook(b: Book): (r: Option<Book>)
    ensures r.Some? <==>
      && Varchar(b.title, TitleWidth).Some? && Varchar(b.author, AuthorWidth).Some?
      && VarcharOptional(b.coverPhotoId, CoverPhotoWidth).Some?
    ensures r.Some? ==>
      && r.value.title == Varchar(b.title, TitleWidth).value
      && r.value.author == Varchar(b.author, AuthorWidth).value
      && r.value.coverPhotoId == VarcharOptional(b.coverPhotoId, CoverPhotoWidth).value
      && r.value.(title := b.title, author := b.author, coverPhotoId := b.coverPhotoId) == b
    ensures r.Some? ==>
      && |r.value.title| <= TitleWidth && |r.value.author| <= AuthorWidth
      && FitsOptional(r.value.coverPhotoId, CoverPhotoWidth)
    ensures |b.title| <= TitleWidth && |b.author| <= AuthorWidth && FitsOptional(b.coverPhotoId, CoverPhotoWidth)
      ==> r == Some(b)
  {
    var t := Varchar(b.title, TitleWidth);
    var a := Varchar(b.author, AuthorWidth);
    var c := VarcharOptional(b.coverPhotoId, CoverPhotoWidth);
    if t.None? || a.None? || c.None? then None
    else Some(b.(title := t.value, author := a.value, coverPhotoId := c.value))
  }

  // ---------------------------------------------------------------------------
  // Table constraints
  // ---------------------------------------------------------------------------

  /** Each map is keyed by the record's own autoincrement id, below the next id to hand out. */
  predicate UsersKeyed(users: map<int, User>, next: int) {
    forall k :: k in users ==> users[k].id == k && 0 < k < next
  }

  predicate CategoriesKeyed(categories: map<int, Category>, next: int) {
    forall k :: k in categories ==> categories[k].id == k && 0 < k < next
  }

  predicate BooksKeyed(books: map<int, Book>, next: int) {
    forall k :: k in books ==> books[k].id == k && 0 < k < next
  }

  predicate BookingsKeyed(bookings: map<int, Booking>, next: int) {
    forall k :: k in bookings ==> bookings[k].id == k && 0 < k < next
  }

  /** UNIQUE(telegram_id). */
  predicate UniqueTelegramIds(users: map<int, User>) {
    forall i, j :: i in users && j in users && users[i].telegramId == users[j].telegramId ==> i == j
  }

  /** The width of `users.name`. */
  predicate UserNamesFit(users: map<int, User>) {
    forall k :: k in users ==> |users[k].name| <= UserNameWidth
  }

  /** UNIQUE(categories.name), and the widths of name and emoji. */
  predicate CategoriesValid(categories: map<int, Category>) {
    && (forall i, j :: i in categories && j in categories && categories[i].name == categories[j].name ==> i == j)
    && (forall k :: k in categories ==> |categories[k].name| <= CategoryNameWidth && |categories[k].emoji| <= EmojiWidth)
  }

  /** CHECK(price >= 0) and the title, author and cover widths; the foreign key to
      categories is in BooksValid. */
  predicate BookValid(b: Book) {
    b.price >= 0.0 && |b.title| <= TitleWidth && |b.author| <= AuthorWidth
    && FitsOptional(b.coverPhotoId, CoverPhotoWidth)
  }

  predicate BooksValid(books: map<int, Book>, categories: map<int, Category>) {
    forall k :: k in books ==> BookValid(books[k]) && books[k].categoryId in categories
  }

  /** The foreign keys of bookings. */
  predicate BookingsReferToRows(bookings: map<int, Booking>, users: map<int, User>, books: map<int, Book>) {
    forall k :: k in bookings ==> bookings[k].userId in users && bookings[k].bookId in books
  }

  predicate IsActiveFor(b: Booking, userId: int, bookId: int) {
    b.status == Active && b.userId == userId && b.bookId == bookId
  }

  predicate HasActive(bookings: map<int, Booking>, userId: int, bookId: int) {
    exists k :: k in bookings && IsActiveFor(bookings[k], userId, bookId)
  }

  predicate HasActiveForBook(bookings: map<int, Booking>, bookId: int) {
    exists k :: k in bookings && bookings[k].status == Active && bookings[k].bookId == bookId
  }

  /** The key invariant: no (user, book) pair has two active bookings. */
  predicate AtMostOneActive(bookings: map<int, Booking>) {
    forall i, j ::
      i in bookings && j in bookings && bookings[i].status == Active && bookings[j].status == Active
      && bookings[i].userId == bookings[j].userId && bookings[i].bookId == bookings[j].bookId
      ==> i == j
  }

  // ---------------------------------------------------------------------------
  // Updates the store performs, as functions on the tables
  // ---------------------------------------------------------------------------

  /** Overwrite one booking's status, without looking at the status it had. */
  function WithStatus(bookings: map<int, Booking>, id: int, s: Status): (r: map<int, Booking>)
    requires id in bookings
    ensures r.Keys == bookings.Keys
    ensures r[id] == bookings[id].(status := s)
    ensures forall k :: k in bookings && k != id ==> r[k] == bookings[k]
  {
    bookings[id := bookings[id].(status := s)]
  }

  /** Setting a status other than Active never creates a second active booking. */
  lemma WithStatusKeepsAtMostOne(bookings: map<int, Booking>, id: int, s: Status)
    requires id in bookings && s != Active
    requires AtMostOneActive(bookings)
    ensures AtMostOneActive(WithStatus(bookings, id, s))
  {
  }

  /** Inserting an active booking for a pair with no active booking keeps the invariant. */
  lemma InsertActiveKeepsAtMostOne(bookings: map<int, Booking>, b: Booking)
    requires b.id !in bookings && b.status == Active
    requires AtMostOneActive(bookings)
    requires !HasActive(bookings, b.userId, b.bookId)
    ensures AtMostOneActive(bookings[b.id := b])
    ensures HasActive(bookings[b.id := b], b.userId, b.bookId)
  {
    var m := bookings[b.id := b];
    assert IsActiveFor(m[b.id], b.userId, b.bookId);
    forall i, j |
      i in m && j in m && m[i].status == Active && m[j].status == Active
      && m[i].userId == m[j].userId && m[i].bookId == m[j].bookId
      ensures i == j
    {
      if i != b.id && j == b.id {
        assert IsActiveFor(bookings[i], b.userId, b.bookId);
      } else if i == b.id && j != b.id {
        assert IsActiveFor(bookings[j], b.userId, b.bookId);
      }
    }
  }

  /** ON DELETE CASCADE from users: the bookings of the removed user go with it. */
  function DropUserBookings(bookings: map<int, Booking>, userId: int): (r: map<int, Booking>)
    ensures forall k :: k in r <==> k in bookings && bookings[k].userId != userId
    ensures forall k :: k in r ==> r[k] == bookings[k]
  {
    map k | k in bookings && bookings[k].userId != userId :: bookings[k]
  }

  /** ON DELETE CASCADE from books: the bookings of the removed books go with them. */
  function DropBookBookings(bookings: map<int, Booking>, bookIds: set<int>): (r: map<int, Booking>)
    ensures forall k :: k in r <==> k in bookings && bookings[k].bookId !in bookIds
    ensures forall k :: k in r ==> r[k] == bookings[k]
  {
    map k | k in bookings && bookings[k].bookId !in bookIds :: bookings[k]
  }

  /** ON DELETE CASCADE from categories: the books of the removed category go with it. */
  function DropCategoryBooks(books: map<int, Book>, categoryId: int): (r: map<int, Book>)
    ensures forall k :: k in r <==> k in books && books[k].categoryId != categoryId
    ensures forall k :: k in r ==> r[k] == books[k]
  {
    map k | k in books && books[k].categoryId != categoryId :: books[k]
  }

  /** Removing rows never breaks the at-most-one-active invariant. */
  lemma SubMapKeepsAtMostOne(bookings: map<int, Booking>, smaller: map<int, Booking>)
    requires AtMostOneActive(bookings)
    requires forall k :: k in smaller ==> k in bookings && smaller[k] == bookings[k]
    ensures AtMostOneActive(smaller)
  {
  }

  /** The user cascade is what keeps the bookings' foreign keys intact once the
      user is gone: every remaining booking still names a remaining user and a
      stored book, none names the removed user, and the bookings of every other
      user are all still there. */
  lemma UserCascadeKeepsReferences(bookings: map<int, Booking>, users: map<int, User>, books: map<int, Book>, userId: int)
    requires BookingsReferToRows(bookings, users, books) && AtMostOneActive(bookings)
    ensures var r := DropUserBookings(bookings, userId);
      && BookingsReferToRows(r, users - {userId}, books)
      && AtMostOneActive(r)
      && (forall k :: k in bookings && bookings[k].userId != userId ==> k in r && r[k] == bookings[k])
  {
    SubMapKeepsAtMostOne(bookings, DropUserBookings(bookings, userId));
  }

  /** The book cascade keeps the foreign keys intact once the books in `bookIds`
      are gone, and keeps every booking of the other books. */
  lemma BookCascadeKeepsReferences(bookings: map<int, Booking>, users: map<int, User>, books: map<int, Book>, bookIds: set<int>)
    requires BookingsReferToRows(bookings, users, books) && AtMostOneActive(bookings)
    ensures var r := DropBookBookings(bookings, bookIds);
      && BookingsReferToRows(r, users, books - bookIds)
      && AtMostOneActive(r)
      && (forall k :: k in bookings && bookings[k].bookId !in bookIds ==> k in r && r[k] == bookings[k])
  {
    SubMapKeepsAtMostOne(bookings, DropBookBookings(bookings, bookIds));
  }

  /** The category cascade, followed by the book cascade for the books it
      removes, keeps every foreign key intact once the category is gone: the
      remaining books name remaining categories and the remaining bookings name
      remaining books. */
  lemma CategoryCascadeKeepsReferences(bookings: map<int, Booking>, users: map<int, User>, books: map<int, Book>,
                                       categories: map<int, Category>, categoryId: int)
    requires BooksValid(books, categories)
    requires BookingsReferToRows(bookings, users, books) && AtMostOneActive(bookings)
    ensures var gone := set k | k in books && books[k].categoryId == categoryId;
      var keptBooks := DropCategoryBooks(books, categoryId);
      var keptBookings := DropBookBookings(bookings, gone);
      && keptBooks == books - gone
      && BooksValid(keptBooks, categories - {categoryId})
      && BookingsReferToRows(keptBookings, users, keptBooks)
      && AtMostOneActive(keptBookings)
  {
    var gone := set k | k in books && books[k].categoryId == categoryId;
    BookCascadeKeepsReferences(bookings, users, books, gone);
  }
}
