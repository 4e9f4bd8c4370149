# BookHive core, modelled in Dafny

BookHive is a Telegram bot for reserving books in a small bookshop. Users browse
categories page by page and open a book's card. They reserve a book for a pickup day
at most 30 days ahead and can cancel their own active reservations. They can also
name favourite genres and get recommendations. Administrators add and delete books
through a step-by-step dialogue.

This project models the part of the bot that has rules of its own:

- **The store** (`store.dfy`, `models.dfy`). The users, categories, books and bookings
  tables are id-keyed maps in one class, `Crud.Store`. Its methods are the CRUD
  operations. `Valid()` holds the schema's constraints: unique Telegram ids, unique
  category names, non-negative prices, the widths of the VARCHAR columns and foreign keys. It also holds
  the key invariant: no (user, book) pair has two active bookings.
- **The reservation dialogue** (`reservation.dfy`). One class holds the dialogue's
  state and the per-user record. Each handler is a method that moves between the
  states and fills or clears the record.
- **The book-management dialogue for administrators** (`book_wizard.dfy`): add a
  book in six steps, or delete one.
- **Cancelling a reservation** (`my_bookings.dfy`): the three checks, in order, that
  come before a cancellation.
- **Callback strings** (`callbacks.dfy`). These are the `_`-separated texts that
  buttons send back, with the `split('_')` fields and `int` reads that decode them.
- **Keyboards, pagination and truncation** (`keyboards.dfy`, `catalog.dfy`).
- **The date-picker calendar** (`calendar.dfy`). It uses proleptic Gregorian
  ordinals and weekdays, as Python's `date` does. It covers the selectable window,
  month navigation and the parser for the picker's callbacks.
- **The list parsers** (`genres.dfy`, `personalized.dfy`, `settings.dfy`): users'
  favourite genres, the genres an administrator types, and the `ADMIN_IDS`
  setting.
- **Python builtins** (`text.dfy`). `str.strip`, `lower`, `split`, `join`, `isdigit`,
  `int()`, `str()` and the display truncation are defined once and used by all of
  the above.

Conventions:

- Dates are integer day numbers, and "today" is a parameter.
- Prices are exact `real`s.
- Exceptions are the `Raised` case of `Wrappers.Outcome`.
- "None" is `Option.None`.

Where `get_all_categories` orders by name, the model uses id order (see below).

## Model

| member | source | states |
|---|---|---|
| Models.StatusOf | database/models.py:419-424 | The status CHECK accepts a text iff it is "active", "completed" or "cancelled", and it maps each accepted text back to the status with that name |
| Models.Varchar | database/models.py:57-61 | Assigning a text to a VARCHAR(n) column succeeds iff it has at most n characters or only spaces past the n-th; the stored text is the input when it fits, otherwise its first n characters, and only spaces are ever dropped |
| Models.VarcharStoredIsFixed | database/models.py:57-61 | A stored text is stored again unchanged, and a text is stored unchanged iff it fits the column |
| Models.StoredBook | database/models.py:205-241 | A book row is accepted iff the title, author and cover id columns accept their values; the stored row has those texts as the columns store them, within their widths, and every other field unchanged; a book whose texts fit is stored as it is |
| Models.StatusNameRoundTrip | database/models.py:374-381 | Every status is stored under a name that the CHECK accepts and that reads back as the same status |
| Models.WithStatus | database/crud.py:864-869 | Overwriting one booking's status keeps the same ids. That booking keeps its user, book, pickup date and comment and gets the new status; every other booking is unchanged |
| Models.WithStatusKeepsAtMostOne | database/crud.py:864-895 | Setting a booking to cancelled or completed never creates a second active booking for a (user, book) pair |
| Models.InsertActiveKeepsAtMostOne | database/crud.py:746-766 | Inserting an active booking for a pair that has none keeps at most one active booking per pair, and the pair then has one |
| Models.UserCascadeKeepsReferences | database/models.py:94-99 | After the user cascade every remaining booking names a remaining user and a stored book, at most one booking per pair is active, and every booking of another user is kept unchanged |
| Models.BookCascadeKeepsReferences | database/models.py:306-311 | After the book cascade every remaining booking names a remaining book, at most one booking per pair is active, and every booking of the other books is kept unchanged |
| Models.CategoryCascadeKeepsReferences | database/models.py:162-167 | The category cascade removes exactly the category's books. Every remaining book names a remaining category, and after the book cascade every remaining booking names a remaining book, with at most one active booking per pair |
| Models.SubMapKeepsAtMostOne | database/models.py:94-99 | Removing bookings (by any cascade) never breaks the at-most-one-active invariant |
| Crud.InsertByDate | database/crud.py:824 | Inserting a booking into a date-sorted list adds exactly that booking and keeps the list sorted by ascending pickup date |
| Crud.InsertByDateDistinct | database/crud.py:824 | Inserting a booking whose id is not yet listed keeps every booking listed once |
| Crud.ScanSelected | database/crud.py:959-970 | The scan of the bookings table returns exactly the stored bookings the query selects, each once |
| Crud.ToggleNotifications | database/crud.py:131-141 | Toggling negates one user's notification flag. That user keeps its ids, name and genres, and every other user is unchanged |
| Crud.ToggleTwice | database/crud.py:121-141 | Toggling twice restores the users table |
| Crud.Store.constructor | database/models.py:45-425 | An empty store satisfies every table constraint |
| Crud.Store.UserKey | database/crud.py:70-82 | A known Telegram id names a stored user with that Telegram id |
| Crud.Store.UserByTelegramId | database/crud.py:70-82 | Returns a user iff one has the Telegram id; that user is the stored row |
| Crud.Store.CreateUser | database/crud.py:33-68 | Upsert on the Telegram id. A name the 255-character column refuses (over 255 characters with something other than spaces past the limit) raises DataError and changes nothing. Otherwise a known user gets the stored name (cut to 255 when only spaces follow), and the new genres only when some are given, and an unknown one is added with the genres or [] and notifications on. Telegram ids stay unique and no other table changes |
| Crud.Store.UpdateUserGenres | database/crud.py:98-119 | Succeeds iff the user exists; the user's genre list is then replaced and nothing else changes |
| Crud.Store.ToggleUserNotifications | database/crud.py:121-141 | Returns the negated flag for a known user and stores it; None and no change for an unknown user |
| Crud.Store.DeleteUser | database/crud.py:165-186 | Succeeds iff the user exists; the user and exactly that user's bookings are removed |
| Crud.Store.CreateCategory | database/crud.py:188-215 | A name the 100-character column or an emoji the 10-character column refuses raises DataError. A stored name already in use raises IntegrityError. The insert succeeds iff both columns accept their value and the stored name is unused, and then exactly one category with the stored name and emoji is added under a fresh id |
| Crud.Store.UpdateCategory | database/crud.py:256-289 | An unknown id gives None. For a known id it raises iff a resulting name or emoji is refused by its column or the stored name is used by another category, and then changes nothing; otherwise it returns the category with each given field replacing the stored one (name and emoji as their columns store them), and stores it |
| Crud.Store.DeleteCategory | database/crud.py:291-310 | Succeeds iff the category exists. The category, its books and those books' bookings are removed |
| Crud.Store.CreateBook | database/crud.py:324-368 | The insert succeeds iff the columns accept title, author and cover id (Models.StoredBook), the price is non-negative and the category exists; a refused field raises DataError. The stored book carries the stored texts and is available whatever the argument says |
| Crud.Store.AllCategories | database/crud.py:217-226 | Every stored category exactly once, in ascending id order |
| Crud.Store.DeleteBook | database/crud.py:662-695 | Deletes iff the book exists and has no active booking. Then the book and its bookings are removed; otherwise nothing changes |
| Crud.Store.CreateBooking | database/crud.py:711-771 | Refused, with nothing stored, for an unknown user, an unknown or unavailable book, or a pair that already has an active booking. Otherwise exactly one active booking is added with the given date and comment and the user's internal id. Valid() (at most one active per pair) is kept |
| Crud.Store.ActiveBooking | database/crud.py:898-924 | Returns a booking iff the user exists and holds an active booking for the book; it is that booking |
| Crud.Store.UserBookings | database/crud.py:795-826 | Exactly the user's bookings, filtered by the status when one is given, each once (no id listed twice), in ascending pickup-date order; [] for an unknown user |
| Crud.Store.BookingsForReminder | database/crud.py:946-973 | Exactly the active bookings whose pickup day is `daysBefore` days after today, each once |
| Crud.Store.CancelBooking | database/crud.py:854-873 | True iff the booking exists. Its status is then overwritten with cancelled, whatever it was, and every other booking is unchanged |
| Crud.Store.CompleteBooking | database/crud.py:876-895 | True iff the booking exists. Its status is then overwritten with completed, whatever it was, and every other booking is unchanged |
| Callbacks.Field | bot/handlers/my_bookings.py:118 | `split('_')[i]` raises IndexError iff there are too few fields; a field never contains '_' |
| Callbacks.FieldOfJoin | bot/handlers/my_bookings.py:222 | Each '_'-free piece of a joined callback is read back as its own field |
| Callbacks.IntFieldOfJoin | bot/handlers/my_bookings.py:286 | A number written into a callback is read back as the same number |
| Callbacks.BookDataRoundTrip | bot/keyboards/catalog.py:79 | The book card reads back from field 1 of `book_{id}` the id the button carries |
| Callbacks.ReserveDataRoundTrip | bot/handlers/booking.py:44 | The reservation reads back from field 2 of `book_reserve_{id}` the book id the button carries |
| Callbacks.BookingDetailDataRoundTrip | bot/handlers/my_bookings.py:84 | `booking_detail_{id}` reads back as the booking id |
| Callbacks.CancelBookingDataRoundTrip | bot/handlers/my_bookings.py:179 | `cancel_booking_{id}` reads back as the booking id |
| Callbacks.ConfirmCancelDataRoundTrip | bot/handlers/my_bookings.py:257 | `confirm_cancel_{id}` reads back as the booking id |
| Catalog.ParseCategoryCallback | bot/handlers/catalog.py:80-88 | The id is field 1. The page is field 3 only when there are at least 4 fields and field 2 is "page"; otherwise the page is 1. Missing or non-numeric fields raise |
| Catalog.CategoryDataRoundTrip | bot/keyboards/catalog.py:32 | `category_{id}` opens page 1 of that category |
| Catalog.CategoryPageDataFields | bot/keyboards/catalog.py:92 | `category_{id}_page_{p}` has exactly the four fields category, id, page and p |
| Catalog.CategoryPageDataRoundTrip | bot/keyboards/catalog.py:109 | `category_{id}_page_{p}` opens page p of category id |
| Catalog.PaginationRoundTrip | bot/keyboards/catalog.py:84-113 | The back button opens page-1 and the forward button page+1 of the same category |
| Catalog.TotalPages | bot/handlers/catalog.py:116 | `ceil(total / per_page)`: zero pages iff no books; the pages hold every book and the last page is not empty |
| Catalog.PagesCoverBooks | bot/handlers/catalog.py:116-125 | Every book falls on a page from 1 to the last, at a position between that page's offset and the next page's |
| Catalog.PageStartsInside | bot/handlers/catalog.py:117 | Every page from 1 to the last starts at an offset inside the book list |
| Catalog.ShowCategoryBooks | bot/handlers/catalog.py:70-146 | Parse errors propagate, and nothing else raises. An unknown category shows nothing. A category with no available books fetches no page. Otherwise the result is the page view of the requested page, for any BOOKS_PER_PAGE |
| Catalog.PageView | bot/handlers/catalog.py:114-146 | The error message is shown iff the page size is 0 or less or the page is before the first. Otherwise the page is fetched with limit per_page and a non-negative offset (page-1)*per_page, and there is at least one page |
| Catalog.DescriptionPreview | bot/handlers/catalog.py:185-190 | Descriptions over 300 characters become their first 297 plus "...", 300 in all; shorter ones are unchanged |
| Catalog.BookCardOf | bot/handlers/catalog.py:185-206 | The card's reserve button reads back as the book's id, and its back button opens page 1 of the book's category. The description is shown iff it is non-empty, as its preview of at most 300 characters |
| Catalog.ShowBookDetail | bot/handlers/catalog.py:149-206 | The id is field 1 of the callback; a malformed callback raises, an unknown book gives nothing, a known one its card |
| Catalog.BookCardRoundTrip | bot/keyboards/catalog.py:79 | Opening `book_{id}` for a stored book shows its card, whose reserve button carries `book_reserve_{id}` |
| Keyboards.PairUp | bot/keyboards/catalog.py:28-39 | Buttons two to a row: ceil(n/2) rows, row r holding buttons 2r and 2r+1, or 2r alone at the end |
| Keyboards.CategoryButtons | bot/keyboards/catalog.py:28-34 | One button per category |
| Keyboards.PairUpOrder | bot/keyboards/catalog.py:28-39 | Button i sits in row i/2, column i%2, so the input order is kept |
| Keyboards.CategoryRowsOrder | bot/keyboards/catalog.py:28-39 | Category i's button, carrying `category_{id}`, is in row i/2, column i%2 |
| Keyboards.CategoryRowsShape | bot/keyboards/catalog.py:28-39 | ceil(n/2) rows; all rows but the last hold two buttons; the last holds one iff n is odd |
| Keyboards.CategoriesKeyboard | bot/keyboards/catalog.py:15-46 | The loop that closes a row at two buttons or at the last category builds the paired rows, then the main-menu row last |
| Keyboards.PaginationRow | bot/keyboards/catalog.py:84-113 | Back (to page-1) iff page > 1, the page indicator always, forward (to page+1) iff page < total_pages |
| Keyboards.BooksRowsLayout | bot/keyboards/catalog.py:70-119 | One row per book in input order, each carrying `book_{id}`. The pagination row is there iff total_pages > 1. The navigation row comes last |
| Keyboards.BooksKeyboard | bot/keyboards/catalog.py:49-121 | The append loop builds exactly that layout |
| Keyboards.BookDetailKeyboard | bot/keyboards/catalog.py:124-154 | Reserve (`book_reserve_{id}`) first, then back to the category and the main menu |
| Keyboards.BookDetailReserveRoundTrip | bot/handlers/booking.py:44 | The reserve button hands the reservation its book id back |
| Text.StripIdempotent | bot/handlers/personalized.py:184-187 | Stripping twice is stripping once |
| Text.StripShape | bot/handlers/personalized.py:184-187 | The strip is a slice of the input whose ends are not whitespace |
| Text.LowerIdempotent | bot/handlers/personalized.py:184 | Lowering keeps the length, and lowering a lowered text changes nothing |
| Text.Split | bot/handlers/personalized.py:187 | Splitting on a character gives at least one piece, none containing it |
| Text.SplitJoin | bot/keyboards/catalog.py:79 | Splitting a join of separator-free pieces gives the pieces back |
| Text.JoinSplit | bot/handlers/personalized.py:187 | Joining the pieces of a split gives the text back |
| Text.ParseInt | config/settings.py:44-45 | `int()` raises only ValueError, and reads only optionally signed runs of digits with blank ends |
| Text.IntRoundTrip | bot/handlers/booking.py:44 | `int(str(n)) == n` for every integer |
| Text.TruncateFits | bot/handlers/my_bookings.py:75-77 | Truncating to limit-3 characters plus "..." gives length min(n, limit), changes a text iff it is too long, keeps its prefix and is idempotent |
| Genres.Pieces | bot/handlers/personalized.py:184-187 | The stripped, lowered text split on ',' with each piece stripped: at least one piece |
| Genres.FilterMembers | bot/handlers/personalized.py:190 | A value is kept iff it is in the input and accepted |
| Genres.FilterCounts | bot/handlers/personalized.py:190 | Accepted values are kept as often as they occur, so duplicates stay |
| Genres.FilterConcat | bot/handlers/personalized.py:190 | Filtering keeps the input order: it distributes over concatenation |
| Genres.FilterKeepsAll | bot/handlers/book_management.py:383 | A list whose every element is accepted passes through unchanged |
| Genres.ParseGenresShape | bot/handlers/book_management.py:381-383 | Each genre an administrator's text yields is non-empty, comma-free and stripped |
| Genres.ParseGenresRoundTrip | bot/handlers/book_management.py:381-383 | A list of such genres, typed comma-separated, parses back to itself |
| Genres.PiecesOfNormalJoin | bot/handlers/personalized.py:184-187 | Stripped lower-case genres joined by commas split back into the same genres |
| Genres.FilteredPiecesRoundTrip | bot/handlers/personalized.py:184-190 | Accepted genres, joined by commas, survive parsing and filtering unchanged |
| Personalized.FavoriteGenres | bot/handlers/personalized.py:184-190 | Keeps exactly the typed pieces that are available genres, each as often as typed |
| Personalized.AmongIsIn | bot/handlers/personalized.py:190 | The list scan is `in AVAILABLE_GENRES` |
| Personalized.AvailableGenresNormal | bot/handlers/personalized.py:22-26 | Every available genre is written the way the parser leaves a piece |
| Personalized.Picked | bot/handlers/personalized.py:22-26 | Picking available genres by position gives those genres in that order |
| Personalized.FavoriteGenresRoundTrip | bot/handlers/personalized.py:184-190 | Any list of available genres, typed comma-separated, is saved exactly as typed, in order and with repetitions |
| Personalized.HandleGenresInput | bot/handlers/personalized.py:179-232 | With no available genre in the text, it stays in genre selection and saves nothing. Otherwise exactly the valid list replaces the user's genres. An unknown user only ends it |
| Personalized.RecommendationOpensBook | bot/handlers/personalized.py:119 | A recommended book's button opens that book's card |
| Personalized.RecommendationRows | bot/handlers/personalized.py:110-121 | One row per recommended book, in order |
| Personalized.ShowPersonalized | bot/handlers/personalized.py:29-146 | An unknown user gets nothing. A user without genres gets the setup prompt and no book query. Otherwise at most 15 books, one row each, then the navigation rows |
| MyBookings.CancelVerdict | bot/handlers/my_bookings.py:229-245 | Not found iff the booking is missing; not the owner iff it belongs to someone else; allowed only for an active booking |
| MyBookings.AllowedIffOwnActive | bot/handlers/my_bookings.py:293-307 | The guards let through exactly the requester's own active bookings |
| MyBookings.CancelOfferedIffActive | bot/handlers/my_bookings.py:172-195 | The detail keyboard offers `cancel_booking_{id}` iff the booking is active |
| MyBookings.ShowBookingDetail | bot/handlers/my_bookings.py:108-209 | The booking id is field 2. A missing booking or another user's booking is refused. Otherwise the detail and its keyboard are shown |
| MyBookings.CancelBookingConfirm | bot/handlers/my_bookings.py:212-273 | The confirmation is offered only when all three guards pass, and its buttons carry the booking id |
| MyBookings.ConfirmKeyboardRoundTrip | bot/handlers/my_bookings.py:255-260 | Both confirmation buttons carry the booking id back in field 2 |
| MyBookings.CancelBookingExecute | bot/handlers/my_bookings.py:276-345 | The store's cancellation runs iff the booking exists, belongs to the requester and is active. No other booking, and no booking the requester may not cancel, changes |
| MyBookings.ShowMyBookings | bot/handlers/my_bookings.py:19-105 | Lists exactly the requester's active bookings, each once, by ascending pickup date, one button each (title cut to 30 characters), or the no-bookings keyboard |
| Reservation.BookingDialogue.constructor | bot/handlers/booking.py:30 | A new dialogue has ended and has an empty record |
| Reservation.BookingDialogue.Start | bot/handlers/booking.py:33-113 | A malformed callback raises with nothing changed. A missing or unavailable book, or one the user already holds actively, ends the dialogue with nothing recorded. Otherwise the book id and title are recorded and it moves to date selection |
| Reservation.BookingDialogue.HandleCalendar | bot/handlers/booking.py:116-172 | A picker step stays in date selection. A day before today ends the dialogue without storing it. Any other day is stored and the comment is asked for |
| Reservation.BookingDialogue.CreateInDb | bot/handlers/booking.py:210-320 | Always ends. Exactly the requested booking is stored iff the store accepts it, and only then is the record cleared |
| Reservation.BookingDialogue.HandleComment | bot/handlers/booking.py:175-193 | A stripped comment over 500 characters keeps the state and stores nothing. Otherwise it is recorded and the booking is created |
| Reservation.BookingDialogue.SkipComment | bot/handlers/booking.py:196-207 | Records "no comment" and creates the booking without a comment |
| Reservation.BookingDialogue.Cancel | bot/handlers/booking.py:323-348 | Clears the record and ends without touching the store |
| BookWizard.CategoryChoiceDataRoundTrip | bot/handlers/book_management.py:257 | `addbook_cat_{id}` reads back as the category id in field 2 |
| BookWizard.CategoryChoice | bot/handlers/book_management.py:250-265 | One button per cached category, then the cancel row |
| BookWizard.FirstWithId | bot/handlers/book_management.py:280-287 | Finds a category iff one in the cache has the id; the one found is the first cached category with it |
| BookWizard.CategoryChoiceFound | bot/handlers/book_management.py:272-287 | Pressing any offered category button selects a cached category with that id |
| BookWizard.BookManagement.constructor | bot/handlers/book_management.py:120-148 | A new dialogue has ended and has a cleared record |
| BookWizard.BookManagement.Cancel | bot/handlers/book_management.py:798-819 | Clears the record and ends |
| BookWizard.BookManagement.AddBookStart | bot/handlers/book_management.py:120-148 | Non-administrators are turned away; administrators start with a cleared record at the title step |
| BookWizard.BookManagement.AddBookTitle | bot/handlers/book_management.py:151-183 | A stripped title shorter than 2 or longer than 255 characters keeps the title step with nothing stored. Otherwise it is stored and the author is asked for |
| BookWizard.BookManagement.AddBookAuthor | bot/handlers/book_management.py:186-213 | A stripped author shorter than 2 characters keeps the author step. Otherwise it is stored and the price is asked for |
| BookWizard.BookManagement.AddBookPrice | bot/handlers/book_management.py:216-269 | An unparsable or non-positive price keeps the price step. With no categories the dialogue ends. Otherwise the price and the categories are stored and a category is asked for |
| BookWizard.BookManagement.AddBookCategory | bot/handlers/book_management.py:272-314 | Cancel ends with a cleared record. A malformed callback raises. An id not among the cached categories ends. Otherwise the category is stored |
| BookWizard.BookManagement.AddBookDescription | bot/handlers/book_management.py:317-367 | Cancel ends with a cleared record. A stripped text over 2000 characters keeps the step. Skip stores None. Otherwise the text is stored, and KeyError is raised iff the title, author, price or category name is missing |
| BookWizard.BookManagement.AddBookGenres | bot/handlers/book_management.py:370-424 | Cancel ends with a cleared record. Skip stores []. Typed text stores its non-empty, stripped, lowered comma pieces. KeyError is raised iff the title, author, price or category name is missing |
| BookWizard.BookManagement.AddBookConfirm | bot/handlers/book_management.py:427-486 | Cancel ends with a cleared record. A record missing a required key raises KeyError with nothing changed. Otherwise the book is created as new and available, with its texts as their columns store them, when the database accepts it, and the record is cleared either way |
| BookWizard.BookManagement.DeleteBookStart | bot/handlers/book_management.py:691-714 | Only administrators reach the id step; the record is untouched |
| BookWizard.BookManagement.DeleteBookGetId | bot/handlers/book_management.py:717-751 | A number naming a stored book is kept and confirmation is asked for; anything else asks again |
| BookWizard.BookManagement.DeleteBookConfirm | bot/handlers/book_management.py:754-791 | Always ends. Cancel clears the record. Cancel and the lack of a non-zero kept id leave the books and bookings unchanged. Otherwise the store's delete_book runs for the kept id: the book and its bookings go iff it exists with no active booking, and nothing changes otherwise. The record is cleared |
| Calendar.DaysInMonth | bot/utils/calendar.py:57 | Every month has 28 to 31 days |
| Calendar.Weekday | bot/utils/calendar.py:57 | `date.weekday()` is between Monday (0) and Sunday (6) |
| Calendar.DaysBeforeYearIsFormula | bot/utils/calendar.py:71-76 | Counting year by year agrees with the closed formula for days before a year |
| Calendar.MonthStepsInverse | bot/utils/calendar.py:94-109 | The two wrap-arounds undo each other |
| Calendar.NextMonthFollows | bot/utils/calendar.py:105-111 | The first of the next month is the day after the last of this month |
| Calendar.OrdinalOrder | bot/utils/calendar.py:73-76 | Comparing ordinals is comparing dates by year, month and day |
| Calendar.MonthGrid | bot/utils/calendar.py:57 | `monthcalendar`: Monday-first weeks of seven cells, padded with 0 |
| Calendar.GridCellsAreDays | bot/utils/calendar.py:57 | Every non-zero cell is a day of the month, in its weekday's column |
| Calendar.GridHoldsEveryDay | bot/utils/calendar.py:57 | Every day of the month appears in the grid |
| Calendar.CalendarKeyboard | bot/utils/calendar.py:15-124 | `create_calendar` succeeds iff the month is 1..12 and the year 1..9999, and not December 9999 |
| Calendar.FillWeeks | bot/utils/calendar.py:63-87 | The nested loop gives one row per week, with each cell drawn by the day rule |
| Calendar.CreateCalendar | bot/utils/calendar.py:15-124 | Missing year and month default to today's, and the keyboard is the calendar of that month |
| Calendar.CalendarFrame | bot/utils/calendar.py:41-53 | The header and weekday rows come first, the week rows follow, and the cancel row is last |
| Calendar.DaySelectableIffInWindow | bot/utils/calendar.py:63-85 | A day is selectable, sending `calendar_day_{y}_{m}_{d}`, iff it lies between today and today+30 |
| Calendar.PaddingBlank | bot/utils/calendar.py:66-68 | Padding cells are always blank |
| Calendar.PrevButtonIff | bot/utils/calendar.py:92-102 | The previous-month button exists iff the shown month is after today's. It then opens the previous month |
| Calendar.NextButtonIff | bot/utils/calendar.py:104-115 | The next-month button exists iff the first of the next month is at most today+30. It then opens the next month |
| Calendar.NoNextMeansNothingAhead | bot/utils/calendar.py:104-115 | Without a next-month button no day of the next month is within the window |
| Calendar.CalendarPrefixFields | bot/utils/calendar.py:134-140 | A text starting with "calendar_" always has at least two fields |
| Calendar.ParseCalendarCallback | bot/utils/calendar.py:127-155 | None unless the text starts with "calendar_". A day needs exactly 5 fields with action "day", and a month exactly 4 with action "month"; otherwise None. For those two shapes the result is Ok iff every numeric field reads as an integer; otherwise ValueError is raised |
| Calendar.DayTextRoundTrip | bot/utils/calendar.py:144-148 | A day callback whose numbers `int` reads as y, m, d parses as that day |
| Calendar.MonthTextRoundTrip | bot/utils/calendar.py:150-153 | A month callback whose numbers `int` reads as y, m parses as that month |
| Calendar.DayDataRoundTrip | bot/utils/calendar.py:81 | Every day button the calendar draws reads back as the same day |
| Calendar.MonthDataRoundTrip | bot/utils/calendar.py:101 | Every month button the calendar draws reads back as the same month |
| Settings.IdsOf | config/settings.py:36-40 | At most one id per token, every id non-negative |
| Settings.IdsOfMembers | config/settings.py:36-40 | An id is listed iff some stripped token is its digits |
| Settings.IdsOfConcat | config/settings.py:36-40 | The kept ids follow the token order |
| Settings.KeptTokenParses | config/settings.py:37 | A kept token is read by `int` as its digits' value |
| Settings.NoAdminsByDefault | config/settings.py:35-40 | The default empty setting names no administrator |
| Settings.AdminIdsRoundTrip | config/settings.py:35-40 | Non-negative ids written comma-separated are read back exactly |
| Settings.LoadConfig | config/settings.py:19-45 | A missing or empty BOT_TOKEN raises ValueError. Malformed numbers raise ValueError. Otherwise the token, the admin ids and the two numbers are read |
| Settings.DefaultConfig | config/settings.py:44-45 | With only a token set: no administrators, 5 books per page and reminders 1 day ahead |
| Settings.MissingTokenFails | config/settings.py:19-21 | Without a bot token loading fails with ValueError |

## Left out

- Telegram I/O: message texts, HTML, `answer`, `edit_message_text` and `reply_text`. The model keeps only the keyboard buttons (text and callback data) that properties need, and the dialogue's next state.
- The third-party date-picker widget used by the reservation dialogue. It is the `CalendarStep` oracle: another picker step, a chosen day, or nothing.
- Reservation.BookingDialogue.HandleCalendar: the widget's own [today, today+30] bound is not modelled; the handler's own check is only the lower bound, as modelled.
- SQLAlchemy sessions, engine and commits; each store method is one atomic step on the in-memory tables. The check-then-insert race between concurrent `create_booking` calls is not modelled, as the model is sequential.
- Crud.Store.AllCategories: lists categories in id order; the ORDER BY name of `get_all_categories` (a database collation) is not modelled.
- Crud.Store.CreateBook: the genres argument is a list; passing None, which stores JSON null in the genres column, is not modelled (the dialogue always passes a list).
- The queries built on `ilike` and JSONB containment (`search_books`, `get_books_by_genres`). `get_books_by_genres` is the parameter `booksFor` of Personalized.ShowPersonalized. The paged fetch of `get_books_by_category` is represented by its limit and offset in Catalog.PageView; the database's refusal of a negative LIMIT or OFFSET is its LoadFailed view.
- Other store operations the handlers above do not rely on: `get_user_by_id`, `get_all_users_with_notifications`, the counting and statistics queries, `get_category_by_name`, `get_all_books`, `get_new_books`, `get_all_bookings`, `update_book` and the cover-photo operations.
- Floating-point prices: a price is an exact `real`, and how a price is printed is the parameter `priceText`. `float()` parsing in the add-book dialogue is the parameter `parsed` of BookWizard.BookManagement.AddBookPrice.
- Dates in the store are day numbers. `date.today()` is a parameter, and how a date is printed is the parameter `dateText`.
- Calendar.CalendarKeyboard: the OverflowError of `today + 30 days` when today is within 30 days of 9999-12-31 is not modelled.
- Text.ParseInt: Python's `int()` also accepts underscores between digits and non-ASCII digits; the model reads optionally signed ASCII digits only.
- Text.Lower: covers ASCII and the Cyrillic letters; other scripts' case mappings are not modelled.
- Settings.AdminIds / Settings.LoadConfig: Python's `str.isdigit` is modelled as ASCII digits only. A token such as "²" passes `isdigit` and then makes `int` raise ValueError, and other scripts' decimal digits are parsed by `int`; the model captures neither.
- Integers are unbounded; database integer widths are not modelled.
- The notification scheduler and the sending of reminders (timers and concurrency); only the reminder query is modelled.
- The display-only handlers (admin panel, profile, new books, search, main menu, common command routing), the photo dialogue, logging, the database URL settings and the scripts. Cancelling from the command router is the Cancel transition of each dialogue.
- The per-user record is one record per dialogue; its sharing between the two dialogues of the same user is not modelled.
- `cancel_booking_execute`'s branch for a failed `crud.cancel_booking` cannot be reached once the guards pass, so it has no separate outcome.
- `parse_calendar_callback`'s `len(parts) < 2` branch cannot be reached after the prefix check (Calendar.CalendarPrefixFields shows why).
