/** Personal recommendations: a user names favourite genres, and books of those
    genres are offered. */
module Personalized {
  import opened Wrappers
  import opened Text
  import opened Models
  import opened Callbacks
  import opened Genres
  import Crud

  /** The genres a user may choose. */
  const AvailableGenres: seq<string> := [
    "фантастика", "детектив", "роман", "классика",
    "психология", "бизнес", "философия", "история",
    "биография", "триллер", "фэнтези", "приключения"]

  /** The genres named in the typed text that are available, in the order typed,
      with repetitions kept; every other piece is dropped. */
  function FavoriteGenres(text: string): (r: seq<string>)
    ensures forall g :: g in r <==> g in Pieces(text) && IsAvailable(g)
    ensures forall g :: multiset(r)[g] == if IsAvailable(g) then multiset(Pieces(text))[g] else 0
  {
    FilterMembers(Pieces(text), IsAvailable);
    FilterCounts(Pieces(text), IsAvailable);
    Filter(Pieces(text), IsAvailable)
  }

  /** `g in AVAILABLE_GENRES`, as a scan of the list. */
  predicate IsAvailable(g: string) {
    Among(g, AvailableGenres)
  }

  predicate Among(g: string, list: seq<string>)
    decreases |list|
  {
    list != [] && (list[0] == g || Among(g, list[1..]))
  }

  lemma {:induction false} AmongIsIn(g: string, list: seq<string>)
    ensures Among(g, list) <==> g in list
    decreases |list|
  {
    if list != [] {
      AmongIsIn(g, list[1..]);
      assert list == [list[0]] + list[1..];
    }
  }

  /** A non-empty word of lower-case Russian letters (а to я). */
  predicate RussianLower(g: string) {
    g != [] && forall i :: 0 <= i < |g| ==> 0x430 <= g[i] as int <= 0x44f
  }

  /** Such a word is written the way the parser leaves a piece. */
  lemma RussianLowerNormal(g: string)
    requires RussianLower(g)
    ensures Normal(g)
  {
    StripUnchanged(g);
    assert Lower(g) == g;
  }

  /** Every available genre is such a word. */
  lemma AvailableGenresRussian()
    ensures forall k :: 0 <= k < |AvailableGenres| ==> RussianLower(AvailableGenres[k])
  {
    assert RussianLower("фантастика");
    assert RussianLower("детектив");
    assert RussianLower("роман");
    assert RussianLower("классика");
    assert RussianLower("психология");
    assert RussianLower("бизнес");
    assert RussianLower("философия");
    assert RussianLower("история");
    assert RussianLower("биография");
    assert RussianLower("триллер");
    assert RussianLower("фэнтези");
    assert RussianLower("приключения");
  }

  /** Every available genre is written the way the parser leaves a piece. */
  lemma AvailableGenresNormal()
    ensures forall k :: 0 <= k < |AvailableGenres| ==> Normal(AvailableGenres[k])
  {
    AvailableGenresRussian();
    forall k | 0 <= k < |AvailableGenres|
      ensures Normal(AvailableGenres[k])
    {
      RussianLowerNormal(AvailableGenres[k]);
    }
  }

  /** The available genres picked by position, in the order picked; a genre may
      be picked more than once. */
  function Picked(picks: seq<int>): (gs: seq<string>)
    requires forall k :: 0 <= k < |picks| ==> 0 <= picks[k] < |AvailableGenres|
    ensures |gs| == |picks|
    ensures forall k :: 0 <= k < |gs| ==> gs[k] == AvailableGenres[picks[k]]
  {
    seq(|picks|, k requires 0 <= k < |picks| => AvailableGenres[picks[k]])
  }

  /** Any list of available genres, typed comma-separated, is saved exactly as
      typed: same genres, same order, same repetitions. */
  lemma FavoriteGenresRoundTrip(picks: seq<int>)
    requires |picks| >= 1
    requires forall k :: 0 <= k < |picks| ==> 0 <= picks[k] < |AvailableGenres|
    ensures FavoriteGenres(Join(Picked(picks), ',')) == Picked(picks)
  {
    var gs := Picked(picks);
    PickedNormal(picks);
    PiecesOfNormalJoin(gs);
    PickedKept(picks);
  }

  lemma PickedNormal(picks: seq<int>)
    requires forall k :: 0 <= k < |picks| ==> 0 <= picks[k] < |AvailableGenres|
    ensures forall k :: 0 <= k < |picks| ==> Normal(Picked(picks)[k])
  {
    AvailableGenresNormal();
  }

  lemma PickedKept(picks: seq<int>)
    requires forall k :: 0 <= k < |picks| ==> 0 <= picks[k] < |AvailableGenres|
    ensures Filter(Picked(picks), IsAvailable) == Picked(picks)
  {
    var gs := Picked(picks);
    forall k | 0 <= k < |gs|
      ensures IsAvailable(gs[k])
    {
      AmongIsIn(gs[k], AvailableGenres);
    }
    FilterKeepsAll(gs, IsAvailable);
  }

  /** The states of the genre dialogue. */
  datatype GenreState = SelectingGenres | GenresEnded

  /** `handle_genres_input`: with no available genre in the text the question is
      asked again and nothing is saved; otherwise the list replaces the user's
      genres (an unknown user only ends the dialogue). */
  method HandleGenresInput(store: Crud.Store, telegramId: int, text: string) returns (r: GenreState)
    requires store.Valid()
    modifies store
    ensures store.Valid()
    ensures r == SelectingGenres <==> FavoriteGenres(text) == []
    ensures r == SelectingGenres ==> store.users == old(store.users)
    ensures r == GenresEnded && old(store.HasUser(telegramId)) ==>
      var k := old(store.UserKey(telegramId));
      store.users == old(store.users)[k := old(store.users[k]).(favoriteGenres := FavoriteGenres(text))]
    ensures r == GenresEnded && !old(store.HasUser(telegramId)) ==> store.users == old(store.users)
    ensures store.books == old(store.books) && store.bookings == old(store.bookings)
    ensures store.categories == old(store.categories)
  {
    var valid := FavoriteGenres(text);
    if valid == [] {
      return SelectingGenres;
    }
    var saved := store.UpdateUserGenres(telegramId, valid);
    r := GenresEnded;
  }

  // ---------------------------------------------------------------------------
  // Recommendations
  // ---------------------------------------------------------------------------

  const RecommendationLimit: nat := 15
  const SetupGenres: Button := Button("⚙️ Настроить жанры", "setup_genres")
  const ChangeGenres: Button := Button("⚙️ Изменить жанры", "setup_genres")
  const ToCatalog: Button := Button("📖 Каталог", "catalog")

  datatype PersonalView =
    | UnknownUser
    | SetupPrompt(keyboard: Keyboard)
    | NoMatches(keyboard: Keyboard)
    | Recommendations(keyboard: Keyboard)

  /** One recommended book: the title cut to 35 characters and the price text. */
  function RecommendationButton(b: Book, priceText: real -> string): Button {
    Button("📚 " + Truncate(b.title, 35, 32) + " - " + priceText(b.price) + "₽", BookData(b.id))
  }

  /** Pressing a recommended book opens that book's card. */
  lemma RecommendationOpensBook(b: Book, priceText: real -> string)
    ensures FieldInt(RecommendationButton(b, priceText).data, 1) == Ok(b.id)
  {
    BookDataRoundTrip(b.id);
  }

  /** The first n books, one button row each, in the order given. */
  method RecommendationRows(books: seq<Book>, n: nat, priceText: real -> string) returns (keyboard: Keyboard)
    requires n <= |books|
    ensures |keyboard| == n
    ensures forall j :: 0 <= j < n ==> keyboard[j] == [RecommendationButton(books[j], priceText)]
  {
    keyboard := [];
    var i := 0;
    while i < n
      invariant 0 <= i <= n && |keyboard| == i
      invariant forall j :: 0 <= j < i ==> keyboard[j] == [RecommendationButton(books[j], priceText)]
    {
      keyboard := keyboard + [[RecommendationButton(books[i], priceText)]];
      i := i + 1;
    }
  }

  /** `show_personalized`. The genre query (`get_books_by_genres`, a JSONB
      containment test) is the parameter `booksFor`; `queried` says whether it
      was consulted. An unknown user gets nothing; a user without genres gets the
      set-up prompt and no query; otherwise at most 15 books, one row each, then
      the navigation rows. */
  method ShowPersonalized(store: Crud.Store, telegramId: int,
                          booksFor: seq<string> -> seq<Book>, priceText: real -> string)
    returns (view: PersonalView, queried: bool)
    requires store.Valid()
    ensures view == UnknownUser <==> !store.HasUser(telegramId)
    ensures store.HasUser(telegramId) ==>
      var genres := store.users[store.UserKey(telegramId)].favoriteGenres;
      && (view.SetupPrompt? <==> genres == [])
      && (queried <==> genres != [])
      && (genres != [] ==> (view.NoMatches? <==> booksFor(genres) == []))
      && (view.Recommendations? ==>
            var books := booksFor(genres);
            var n := if |books| < RecommendationLimit then |books| else RecommendationLimit;
            && |view.keyboard| == n + 2
            && view.keyboard[n] == [ChangeGenres]
            && view.keyboard[n + 1] == [ToCatalog, MainMenu]
            && forall i :: 0 <= i < n ==>
                 view.keyboard[i] == [RecommendationButton(books[i], priceText)])
    ensures !store.HasUser(telegramId) ==> !queried
  {
    var user := store.UserByTelegramId(telegramId);
    if user.None? {
      return UnknownUser, false;
    }
    var genres := user.value.favoriteGenres;
    if genres == [] {
      return SetupPrompt([[SetupGenres], [MainMenu]]), false;
    }
    var books := booksFor(genres);
    queried := true;
    if books == [] {
      return NoMatches([[ChangeGenres], [ToCatalog], [MainMenu]]), queried;
    }
    var n := if |books| < RecommendationLimit then |books| else RecommendationLimit;
    var rows := RecommendationRows(books, n, priceText);
    var keyboard := rows + [[ChangeGenres], [ToCatalog, MainMenu]];
    assert forall j :: 0 <= j < n ==> keyboard[j] == rows[j];
    view := Recommendations(keyboard);
  }
}
