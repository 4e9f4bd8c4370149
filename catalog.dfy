/** The catalogue handlers: which category and page a callback asks for, how many
    pages a category has and where a page starts, and the book card. */
module Catalog {
  import opened Wrappers
  import opened Text
  import opened Models
  import opened Callbacks
  import opened Keyboards
  import Crud

  // ---------------------------------------------------------------------------
  // Which category page a callback asks for
  // ---------------------------------------------------------------------------

  datatype CategoryPage = CategoryPage(categoryId: int, page: int)

  /** The parse in `show_category_books`: the id is field 1; the page is field 3
      when there are at least four fields and field 2 is `page`, and 1 otherwise. */
  function ParseCategoryCallback(data: string): (r: Outcome<CategoryPage>)
    ensures var parts := Split(data, '_');
      && (|parts| < 2 ==> r == Raised(IndexError))
      && (r.Ok? ==> |parts| >= 2 && ParseInt(parts[1]) == Ok(r.value.categoryId))
      && (r.Ok? && (|parts| < 4 || parts[2] != "page") ==> r.value.page == 1)
      && (r.Ok? && |parts| >= 4 && parts[2] == "page" ==> ParseInt(parts[3]) == Ok(r.value.page))
  {
    var parts := Split(data, '_');
    if |parts| < 2 then Raised(IndexError)
    else
      match ParseInt(parts[1])
      case Raised(e) => Raised(e)
      case Ok(categoryId) =>
        if |parts| >= 4 && parts[2] == "page" then
          match ParseInt(parts[3])
          case Raised(e) => Raised(e)
          case Ok(page) => Ok(CategoryPage(categoryId, page))
        else Ok(CategoryPage(categoryId, 1))
  }

  /** `category_{id}` opens page 1 of that category. */
  lemma CategoryDataRoundTrip(id: int)
    ensures ParseCategoryCallback(CategoryData(id)) == Ok(CategoryPage(id, 1))
  {
    var n := IntToString(id);
    IntToStringHasNo(id, '_');
    JoinPair("category", n, '_');
    assert "category_" == "category" + ['_'];
    SplitJoin(["category", n], '_');
    IntRoundTrip(id);
  }

  /** `category_{id}_page_{page}` splits into its four fields. */
  lemma CategoryPageDataFields(id: int, page: int)
    ensures Split(CategoryPageData(id, page), '_') == ["category", IntToString(id), "page", IntToString(page)]
  {
    var n, p := IntToString(id), IntToString(page);
    IntToStringHasNo(id, '_');
    IntToStringHasNo(page, '_');
    JoinQuad("category", n, "page", p, '_');
    assert CategoryPageData(id, page) == "category" + ['_'] + n + ['_'] + "page" + ['_'] + p;
    SplitJoin(["category", n, "page", p], '_');
  }

  /** `category_{id}_page_{page}` opens that page of that category. */
  lemma CategoryPageDataRoundTrip(id: int, page: int)
    ensures ParseCategoryCallback(CategoryPageData(id, page)) == Ok(CategoryPage(id, page))
  {
    CategoryPageDataFields(id, page);
    IntRoundTrip(id);
    IntRoundTrip(page);
  }

  /** The back and forward buttons of the pagination row open the neighbouring pages. */
  lemma PaginationRoundTrip(categoryId: int, page: int, totalPages: int)
    ensures var row := PaginationRow(categoryId, page, totalPages);
      && (page > 1 ==> ParseCategoryCallback(row[0].data) == Ok(CategoryPage(categoryId, page - 1)))
      && (page < totalPages ==> ParseCategoryCallback(row[|row| - 1].data) == Ok(CategoryPage(categoryId, page + 1)))
  {
    CategoryPageDataRoundTrip(categoryId, page - 1);
    CategoryPageDataRoundTrip(categoryId, page + 1);
  }

  // ---------------------------------------------------------------------------
  // Page arithmetic
  // ---------------------------------------------------------------------------

  /** `math.ceil(total / per_page)` for a positive page size. */
  function TotalPages(total: nat, perPage: int): (pages: nat)
    requires perPage > 0
    ensures pages == 0 <==> total == 0
    ensures pages * perPage >= total
    ensures total > 0 ==> (pages - 1) * perPage < total
  {
    var q := (total + perPage - 1) / perPage;
    assert q * perPage + (total + perPage - 1) % perPage == total + perPage - 1;
    q
  }

  /** `(page - 1) * per_page`: the number of books before the page. */
  function Offset(page: int, perPage: int): int {
    (page - 1) * perPage
  }

  /** Every page from 1 to the last starts inside the list, and every book of the
      category lies on exactly one page: book j is on page j / per_page + 1. */
  lemma PagesCoverBooks(total: nat, perPage: int, j: nat)
    requires perPage > 0 && j < total
    ensures var page := j / perPage + 1;
      && 1 <= page <= TotalPages(total, perPage)
      && Offset(page, perPage) <= j < Offset(page, perPage) + perPage
  {
    var q, m := j / perPage, j % perPage;
    var pages := TotalPages(total, perPage);
    assert j == q * perPage + m && 0 <= m < perPage;
    FactorsOrdered(q, pages, perPage);
  }

  /** Products with the same positive factor are ordered as the other factors. */
  lemma FactorsOrdered(a: int, b: int, c: int)
    requires c > 0 && a * c < b * c
    ensures a < b
  {
    assert (b - a) * c == b * c - a * c;
  }

  lemma {:induction false} PageStartsInside(total: nat, perPage: int, page: int)
    requires perPage > 0 && 1 <= page <= TotalPages(total, perPage)
    ensures 0 <= Offset(page, perPage) < total
  {
    var pages := TotalPages(total, perPage);
    assert (page - 1) * perPage <= (pages - 1) * perPage;
  }

  // ---------------------------------------------------------------------------
  // show_category_books
  // ---------------------------------------------------------------------------

  /** What the category view does: nothing for an unknown category; for an empty
      one, a keyboard with just that category; otherwise it fetches one page, or
      shows the loading-error message when computing or fetching the page fails. */
  datatype CategoryView =
    | CategoryMissing
    | NoBooks(keyboard: Keyboard)
    | FetchPage(page: int, totalPages: nat, limit: int, offset: int)
    | LoadFailed

  /** Why a page of a category with books cannot be loaded: a page size of 0
      divides by zero in `ceil(total / per_page)`, and a negative page size or a
      page before the first gives a negative LIMIT or OFFSET, which the database
      refuses. Both happen inside the handler's `try`, whose `except Exception`
      shows the error message. */
  predicate PageFails(page: int, perPage: int) {
    perPage <= 0 || Offset(page, perPage) < 0
  }

  /** The view of page `page` of a category holding `total` available books:
      the page is fetched iff its size and offset are ones the database accepts. */
  function PageView(page: int, total: nat, perPage: int): (v: CategoryView)
    requires total > 0
    ensures v == LoadFailed <==> PageFails(page, perPage)
    ensures v != LoadFailed ==>
      && v.FetchPage? && perPage > 0 && page >= 1
      && v.page == page
      && v.totalPages == TotalPages(total, perPage) > 0
      && v.limit == perPage
      && 0 <= v.offset == Offset(page, perPage)
  {
    if PageFails(page, perPage) then LoadFailed
    else FetchPage(page, TotalPages(total, perPage), perPage, Offset(page, perPage))
  }

  /** `show_category_books`: parse errors propagate (the parse is outside the
      `try`); the book count only covers available books; a category with no
      such books is never paged; otherwise a page is fetched iff its size and
      offset are ones the database accepts, and the error message is shown
      otherwise. */
  function ShowCategoryBooks(store: Crud.Store, data: string, perPage: int): (r: Outcome<CategoryView>)
    reads store
    ensures r.Ok? <==> ParseCategoryCallback(data).Ok?
    ensures r.Raised? ==> r == Raised(ParseCategoryCallback(data).error)
    ensures r.Ok? ==> var cp := ParseCategoryCallback(data).value;
      var total := store.CategoryBookCount(cp.categoryId, true);
      && (r.value == CategoryMissing <==> cp.categoryId !in store.categories)
      && (r.value.NoBooks? <==> cp.categoryId in store.categories && total == 0)
      && (cp.categoryId in store.categories && total > 0 ==> r.value == PageView(cp.page, total, perPage))
  {
    match ParseCategoryCallback(data)
    case Raised(e) => Raised(e)
    case Ok(cp) =>
      match store.CategoryById(cp.categoryId)
      case None => Ok(CategoryMissing)
      case Some(category) =>
        var total := store.CategoryBookCount(cp.categoryId, true);
        if total == 0 then Ok(NoBooks(CategoryRows([category]) + [[MainMenu]]))
        else Ok(PageView(cp.page, total, perPage))
  }

  // ---------------------------------------------------------------------------
  // show_book_detail
  // ---------------------------------------------------------------------------

  /** The part of a book card the model keeps: the description shown, if any, and
      the keyboard. */
  datatype BookCard = BookCard(description: Option<string>, keyboard: Keyboard)

  /** Descriptions longer than 300 characters are cut to 297 and an ellipsis. */
  function DescriptionPreview(description: string): (r: string)
    ensures |r| == if |description| <= 300 then |description| else 300
    ensures |description| <= 300 ==> r == description
    ensures |description| > 300 ==> r == description[..297] + "..."
  {
    Truncate(description, 300, 297)
  }

  /** The card of a stored book: its reserve button starts a reservation of this
      book, its back button reopens the first page of the book's category, and
      the description is shown only when there is a non-empty one, never longer
      than 300 characters. */
  function BookCardOf(b: Book): (card: BookCard)
    ensures |card.keyboard| == 2 && |card.keyboard[0]| == 1 && |card.keyboard[1]| == 2
    ensures FieldInt(card.keyboard[0][0].data, 2) == Ok(b.id)
    ensures ParseCategoryCallback(card.keyboard[1][0].data) == Ok(CategoryPage(b.categoryId, 1))
    ensures card.description.Some? <==> b.description.Some? && b.description.value != ""
    ensures card.description.Some? ==>
      var d := b.description.value;
      && |card.description.value| <= 300
      && card.description.value == DescriptionPreview(d)
  {
    BookDetailReserveRoundTrip(b.id, b.categoryId);
    CategoryDataRoundTrip(b.categoryId);
    var description := if b.description.Some? && b.description.value != "" then Some(DescriptionPreview(b.description.value)) else None;
    BookCard(description, BookDetailKeyboard(b.id, b.categoryId))
  }

  /** `show_book_detail`: the id is field 1 of `book_{id}`; an unknown book gives
      no card. */
  function ShowBookDetail(store: Crud.Store, data: string): (r: Outcome<Option<BookCard>>)
    reads store
    ensures FieldInt(data, 1).Raised? ==> r == Raised(FieldInt(data, 1).error)
    ensures FieldInt(data, 1).Ok? && FieldInt(data, 1).value !in store.books ==> r == Ok(None)
    ensures FieldInt(data, 1).Ok? && FieldInt(data, 1).value in store.books ==>
      r == Ok(Some(BookCardOf(store.books[FieldInt(data, 1).value])))
  {
    match FieldInt(data, 1)
    case Raised(e) => Raised(e)
    case Ok(id) =>
      match store.BookById(id)
      case None => Ok(None)
      case Some(b) => Ok(Some(BookCardOf(b)))
  }

  /** A book card opened from a `book_{id}` button shows that book. */
  lemma BookCardRoundTrip(store: Crud.Store, id: int)
    requires id in store.books && store.books[id].id == id
    ensures ShowBookDetail(store, BookData(id)).Ok?
    ensures ShowBookDetail(store, BookData(id)).value.Some?
    ensures ShowBookDetail(store, BookData(id)).value.value.keyboard[0][0].data == ReserveData(id)
  {
    BookDataRoundTrip(id);
  }
}
