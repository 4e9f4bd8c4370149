/** The catalogue keyboards: categories two to a row, one row per book with
    pagination under them, and the book card's actions. */
module Keyboards {
  import opened Wrappers
  import opened Text
  import opened Callbacks
  import opened Models

  // ---------------------------------------------------------------------------
  // Categories, two to a row
  // ---------------------------------------------------------------------------

  function CategoryButton(c: Category): Button {
    Button(c.emoji + " " + c.name, CategoryData(c.id))
  }

  /** Buttons laid out two to a row: row r holds buttons 2r and 2r+1, or only 2r
      when that is the last one. */
  function PairUp(bs: seq<Button>): (rows: Keyboard)
    ensures |rows| == (|bs| + 1) / 2
    ensures forall r :: 0 <= r < |rows| ==>
      |rows[r]| == (if 2 * r + 1 < |bs| then 2 else 1)
  {
    seq((|bs| + 1) / 2, r requires 0 <= r < (|bs| + 1) / 2 =>
      if 2 * r + 1 < |bs| then [bs[2 * r], bs[2 * r + 1]] else [bs[2 * r]])
  }

  function CategoryButtons(cs: seq<Category>): (bs: seq<Button>)
    ensures |bs| == |cs|
  {
    seq(|cs|, i requires 0 <= i < |cs| => CategoryButton(cs[i]))
  }

  /** The category rows of the catalogue keyboard. */
  function CategoryRows(cs: seq<Category>): Keyboard {
    PairUp(CategoryButtons(cs))
  }

  /** Button i sits in row i / 2, column i % 2. */
  lemma PairUpOrder(bs: seq<Button>)
    ensures var rows := PairUp(bs);
      forall i :: 0 <= i < |bs| ==> rows[i / 2][i % 2] == bs[i]
  {
    var rows := PairUp(bs);
    forall i | 0 <= i < |bs|
      ensures rows[i / 2][i % 2] == bs[i]
    {
      var r, c := i / 2, i % 2;
      assert i == 2 * r + c && 0 <= c < 2;
      assert r < |rows|;
    }
  }

  /** The rows hold every category once, in input order: category i sits in row
      i / 2, column i % 2. */
  lemma CategoryRowsOrder(cs: seq<Category>)
    ensures var rows := CategoryRows(cs);
      forall i :: 0 <= i < |cs| ==> rows[i / 2][i % 2] == CategoryButton(cs[i])
  {
    PairUpOrder(CategoryButtons(cs));
  }

  /** There are ceil(n/2) rows; every row but the last holds two buttons, and the
      last holds one exactly when the number of categories is odd. */
  lemma CategoryRowsShape(cs: seq<Category>)
    ensures var rows := CategoryRows(cs);
      && |rows| == (|cs| + 1) / 2
      && (forall r :: 0 <= r < |rows| - 1 ==> |rows[r]| == 2)
      && (|rows| > 0 ==> (|rows[|rows| - 1]| == 1 <==> |cs| % 2 == 1))
  {
  }

  /** Row r of the pairing: buttons 2r and 2r+1, or 2r alone when it is last. */
  lemma PairUpRow(bs: seq<Button>, r: int)
    requires 0 <= r && 2 * r < |bs|
    ensures r < |PairUp(bs)|
    ensures PairUp(bs)[r] == if 2 * r + 1 < |bs| then [bs[2 * r], bs[2 * r + 1]] else [bs[2 * r]]
  {
  }

  lemma TakeOneMore(rows: Keyboard, k: int)
    requires 0 <= k < |rows|
    ensures rows[..k] + [rows[k]] == rows[..k + 1]
  {
  }

  /** Closing row `closed` after k more buttons: the rows are used up exactly
      when the buttons are. */
  lemma RowsClosed(n: int, closed: int, k: int)
    requires 0 <= closed && 1 <= k <= 2 && 2 * closed + k <= n
    ensures closed < (n + 1) / 2
    ensures 2 * closed + k == n ==> closed + 1 == (n + 1) / 2
  {
  }

  /** `get_categories_keyboard`: a row is closed when it holds two buttons or the
      last category has been placed; the main-menu row comes last. */
  method CategoriesKeyboard(categories: seq<Category>) returns (keyboard: Keyboard)
    ensures keyboard == CategoryRows(categories) + [[MainMenu]]
  {
    ghost var bs := CategoryButtons(categories);
    ghost var rows := PairUp(bs);
    var n := |categories|;
    keyboard := [];
    var row: seq<Button> := [];
    var i := 0;
    ghost var closed := 0;
    while i < n
      invariant 0 <= i <= n && 0 <= closed <= |rows|
      invariant keyboard == rows[..closed]
      invariant i < n ==> i == 2 * closed + |row|
      invariant i == n ==> closed == |rows|
      invariant |row| <= 1 && (|row| == 1 ==> i >= 1 && row == [bs[i - 1]])
    {
      var button := CategoryButton(categories[i]);
      assert button == bs[i];
      row := row + [button];
      if |row| == 2 || i == n - 1 {
        PairUpRow(bs, closed);
        RowsClosed(n, closed, |row|);
        if |row| == 2 {
          assert i == 2 * closed + 1 && row == [bs[i - 1], bs[i]];
        } else {
          assert i == 2 * closed && i == n - 1 && row == [bs[i]];
        }
        assert rows[closed] == row;
        TakeOneMore(rows, closed);
        keyboard := keyboard + [row];
        row := [];
        closed := closed + 1;
      }
      i := i + 1;
    }
    keyboard := keyboard + [[MainMenu]];
  }

  // ---------------------------------------------------------------------------
  // Books of one category page
  // ---------------------------------------------------------------------------

  /** The button of one book: the title cut to 40 characters and the price text
      (the price's decimal rendering is a parameter: floats are not modelled). */
  function BookButton(b: Book, priceText: real -> string): Button {
    Button("📚 " + Truncate(b.title, 40, 37) + " - " + priceText(b.price) + "₽", BookData(b.id))
  }

  const PageIndicatorData := "current_page"

  /** The pagination row: back to page-1 when page > 1, the page indicator, and
      forward to page+1 when page < totalPages. */
  function PaginationRow(categoryId: int, page: int, totalPages: int): (row: seq<Button>)
    ensures |row| == 1 + (if page > 1 then 1 else 0) + (if page < totalPages then 1 else 0)
    ensures page > 1 ==> row[0].data == CategoryPageData(categoryId, page - 1)
    ensures row[if page > 1 then 1 else 0].data == PageIndicatorData
    ensures page < totalPages ==> row[|row| - 1].data == CategoryPageData(categoryId, page + 1)
  {
    (if page > 1 then [Button("◀️ Назад", CategoryPageData(categoryId, page - 1))] else [])
    + [Button("📄 " + IntToString(page) + "/" + IntToString(totalPages), PageIndicatorData)]
    + (if page < totalPages then [Button("Вперёд ▶️", CategoryPageData(categoryId, page + 1))] else [])
  }

  const BackToCatalog: Button := Button("🔙 К категориям", "catalog")

  /** The whole books keyboard as a value. */
  function BooksRows(books: seq<Book>, categoryId: int, page: int, totalPages: int, priceText: real -> string): Keyboard {
    seq(|books|, i requires 0 <= i < |books| => [BookButton(books[i], priceText)])
    + (if totalPages > 1 then [PaginationRow(categoryId, page, totalPages)] else [])
    + [[BackToCatalog, MainMenu]]
  }

  /** One row per book in input order, the pagination row exactly when there is
      more than one page, and the navigation row last. */
  lemma BooksRowsLayout(books: seq<Book>, categoryId: int, page: int, totalPages: int, priceText: real -> string)
    ensures var k := BooksRows(books, categoryId, page, totalPages, priceText);
      && |k| == |books| + (if totalPages > 1 then 1 else 0) + 1
      && (forall i :: 0 <= i < |books| ==> k[i] == [BookButton(books[i], priceText)] && k[i][0].data == BookData(books[i].id))
      && (totalPages > 1 ==> k[|books|] == PaginationRow(categoryId, page, totalPages))
      && k[|k| - 1] == [BackToCatalog, MainMenu]
  {
  }

  /** `get_books_keyboard`. */
  method BooksKeyboard(books: seq<Book>, categoryId: int, page: int, totalPages: int, priceText: real -> string)
    returns (keyboard: Keyboard)
    ensures keyboard == BooksRows(books, categoryId, page, totalPages, priceText)
  {
    keyboard := [];
    var i := 0;
    while i < |books|
      invariant 0 <= i <= |books|
      invariant keyboard == seq(i, j requires 0 <= j < i => [BookButton(books[j], priceText)])
    {
      keyboard := keyboard + [[BookButton(books[i], priceText)]];
      i := i + 1;
    }
    if totalPages > 1 {
      var pagination: seq<Button> := [];
      if page > 1 {
        pagination := pagination + [Button("◀️ Назад", CategoryPageData(categoryId, page - 1))];
      }
      pagination := pagination + [Button("📄 " + IntToString(page) + "/" + IntToString(totalPages), PageIndicatorData)];
      if page < totalPages {
        pagination := pagination + [Button("Вперёд ▶️", CategoryPageData(categoryId, page + 1))];
      }
      assert pagination == PaginationRow(categoryId, page, totalPages);
      keyboard := keyboard + [pagination];
    }
    keyboard := keyboard + [[BackToCatalog, MainMenu]];
  }

  // ---------------------------------------------------------------------------
  // The book card
  // ---------------------------------------------------------------------------

  /** `get_book_detail_keyboard`: reserve, then back to the category and the main menu. */
  function BookDetailKeyboard(bookId: int, categoryId: int): (k: Keyboard)
    ensures |k| == 2 && |k[0]| == 1 && |k[1]| == 2
    ensures k[0][0].data == ReserveData(bookId)
    ensures k[1][0].data == CategoryData(categoryId) && k[1][1] == MainMenu
  {
    [[Button("🔖 Забронировать", ReserveData(bookId))],
     [Button("🔙 К книгам", CategoryData(categoryId)), MainMenu]]
  }

  /** The reserve button hands the reservation its book id back. */
  lemma BookDetailReserveRoundTrip(bookId: int, categoryId: int)
    ensures FieldInt(BookDetailKeyboard(bookId, categoryId)[0][0].data, 2) == Ok(bookId)
  {
    ReserveDataRoundTrip(bookId);
  }
}
