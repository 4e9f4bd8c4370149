/** The comma-separated genre lists that users and administrators type in. Both
    parsers strip and lower-case the text, split it on commas and strip each
    piece; they differ in which pieces they keep. */
module Genres {
  import opened Text

  /** A genre as the parsers leave it: not empty, without a comma, without blanks
      at either end, and already lower-case. */
  predicate Normal(g: string) {
    g != [] && ',' !in g && Strip(g) == g && Lower(g) == g
  }

  /** `[g.strip() for g in text.strip().lower().split(',')]`. */
  function Pieces(text: string): (ps: seq<string>)
    ensures |ps| >= 1
  {
    var raw := Split(Lower(Strip(text)), ',');
    seq(|raw|, i requires 0 <= i < |raw| => Strip(raw[i]))
  }

  /** The elements `keep` accepts, in their order. */
  function Filter(xs: seq<string>, keep: string -> bool): (r: seq<string>)
    ensures |r| <= |xs|
    decreases |xs|
  {
    if xs == [] then []
    else (if keep(xs[0]) then [xs[0]] else []) + Filter(xs[1..], keep)
  }

  /** A value is kept iff it occurs in the input and is accepted. */
  lemma {:induction false} FilterMembers(xs: seq<string>, keep: string -> bool)
    ensures forall x :: x in Filter(xs, keep) <==> x in xs && keep(x)
    decreases |xs|
  {
    if xs != [] {
      FilterMembers(xs[1..], keep);
      assert xs == [xs[0]] + xs[1..];
    }
  }

  /** Every accepted value occurs as often as in the input (duplicates stay),
      every other value not at all. */
  lemma {:induction false} FilterCounts(xs: seq<string>, keep: string -> bool)
    ensures forall x :: multiset(Filter(xs, keep))[x] == if keep(x) then multiset(xs)[x] else 0
    decreases |xs|
  {
    if xs != [] {
      FilterCounts(xs[1..], keep);
      assert xs == [xs[0]] + xs[1..];
    }
  }

  /** Filtering keeps the input order: it distributes over concatenation. */
  lemma {:induction false} FilterConcat(a: seq<string>, b: seq<string>, keep: string -> bool)
    ensures Filter(a + b, keep) == Filter(a, keep) + Filter(b, keep)
    decreases |a|
  {
    if a == [] {
      assert a + b == b;
    } else {
      assert (a + b)[1..] == a[1..] + b;
      FilterConcat(a[1..], b, keep);
    }
  }

  /** A list whose every element is accepted passes through unchanged. */
  lemma {:induction false} FilterKeepsAll(xs: seq<string>, keep: string -> bool)
    requires forall k :: 0 <= k < |xs| ==> keep(xs[k])
    ensures Filter(xs, keep) == xs
    decreases |xs|
  {
    if xs != [] {
      FilterKeepsAll(xs[1..], keep);
    }
  }

  /** The administrator's genre list (`add_book_genres`): the non-empty pieces. */
  function ParseGenres(text: string): seq<string> {
    Filter(Pieces(text), g => g != "")
  }

  /** A stripped piece has no comma and no blank end. */
  lemma PieceShape(raw: string)
    requires ',' !in raw
    ensures ',' !in Strip(raw) && Strip(Strip(raw)) == Strip(raw)
  {
    StripShape(raw);
    StripIdempotent(raw);
    var s := Strip(raw);
    var i := |raw| - |TrimLeft(raw)|;
    forall k | 0 <= k < |s|
      ensures s[k] != ','
    {
      assert s[k] == raw[i + k];
    }
  }

  /** Every parsed genre is non-empty, comma-free and stripped. */
  lemma ParseGenresShape(text: string)
    ensures forall g :: g in ParseGenres(text) ==> g != [] && ',' !in g && Strip(g) == g
  {
    var raw := Split(Lower(Strip(text)), ',');
    var ps := Pieces(text);
    FilterMembers(ps, g => g != "");
    forall g | g in ParseGenres(text)
      ensures g != [] && ',' !in g && Strip(g) == g
    {
      assert g in ps;
      var k :| 0 <= k < |ps| && ps[k] == g;
      PieceShape(raw[k]);
    }
  }

  /** The first character of a join is that of the first piece, the last that of
      the last piece. */
  lemma {:induction false} JoinEnds(parts: seq<string>, sep: char)
    requires |parts| >= 1 && forall k :: 0 <= k < |parts| ==> parts[k] != []
    ensures var s := Join(parts, sep);
      s != [] && s[0] == parts[0][0] && s[|s| - 1] == parts[|parts| - 1][|parts[|parts| - 1]| - 1]
    decreases |parts|
  {
    if |parts| > 1 {
      JoinEnds(parts[1..], sep);
    }
  }

  /** Lower-case pieces joined by a lower-case separator give a lower-case text. */
  lemma {:induction false} JoinLowerFixed(parts: seq<string>, sep: char)
    requires |parts| >= 1 && LowerChar(sep) == sep
    requires forall k :: 0 <= k < |parts| ==> Lower(parts[k]) == parts[k]
    ensures Lower(Join(parts, sep)) == Join(parts, sep)
    decreases |parts|
  {
    var a := parts[0];
    assert forall i :: 0 <= i < |a| ==> LowerChar(a[i]) == a[i] by {
      forall i | 0 <= i < |a| ensures LowerChar(a[i]) == a[i] {
        assert Lower(a)[i] == LowerChar(a[i]);
      }
    }
    if |parts| > 1 {
      var r := Join(parts[1..], sep);
      JoinLowerFixed(parts[1..], sep);
      assert forall i :: 0 <= i < |r| ==> LowerChar(r[i]) == r[i] by {
        forall i | 0 <= i < |r| ensures LowerChar(r[i]) == r[i] {
          assert Lower(r)[i] == LowerChar(r[i]);
        }
      }
    }
  }

  /** A genre that is its own strip has no blank at either end. */
  lemma NormalEnds(g: string)
    requires Normal(g)
    ensures !IsSpace(g[0]) && !IsSpace(g[|g| - 1])
  {
    StripShape(g);
  }

  /** Non-empty pieces whose outer ends are not blank join to a text that is its
      own strip. */
  lemma JoinStripped(gs: seq<string>)
    requires |gs| >= 1 && forall k :: 0 <= k < |gs| ==> gs[k] != []
    requires !IsSpace(gs[0][0]) && !IsSpace(gs[|gs| - 1][|gs[|gs| - 1]| - 1])
    ensures Strip(Join(gs, ',')) == Join(gs, ',')
  {
    JoinEnds(gs, ',');
    StripUnchanged(Join(gs, ','));
  }

  /** Normal genres joined by commas give a text that is its own strip and its
      own lower-case form. */
  lemma NormalJoinClean(gs: seq<string>)
    requires |gs| >= 1
    requires forall k :: 0 <= k < |gs| ==> Normal(gs[k])
    ensures Lower(Strip(Join(gs, ','))) == Join(gs, ',')
  {
    NormalEnds(gs[0]);
    NormalEnds(gs[|gs| - 1]);
    JoinStripped(gs);
    JoinLowerFixed(gs, ',');
  }

  /** When a text is its own lowered strip and splits into stripped pieces, the
      pieces are what `Pieces` returns. */
  lemma PiecesOfClean(s: string, gs: seq<string>)
    requires Lower(Strip(s)) == s && Split(s, ',') == gs
    requires forall k :: 0 <= k < |gs| ==> Strip(gs[k]) == gs[k]
    ensures Pieces(s) == gs
  {
  }

  /** The text of normal genres joined by commas splits back into the genres. */
  lemma PiecesOfNormalJoin(gs: seq<string>)
    requires |gs| >= 1
    requires forall k :: 0 <= k < |gs| ==> Normal(gs[k])
    ensures Pieces(Join(gs, ',')) == gs
  {
    NormalJoinClean(gs);
    SplitJoin(gs, ',');
    PiecesOfClean(Join(gs, ','), gs);
  }

  /** Normal genres that a filter accepts, written comma-separated, come back
      from the filtered pieces unchanged. */
  lemma FilteredPiecesRoundTrip(gs: seq<string>, keep: string -> bool)
    requires |gs| >= 1
    requires forall k :: 0 <= k < |gs| ==> Normal(gs[k]) && keep(gs[k])
    ensures Filter(Pieces(Join(gs, ',')), keep) == gs
  {
    PiecesOfNormalJoin(gs);
    FilterKeepsAll(gs, keep);
  }

  /** A list of normal genres, written comma-separated, parses back to itself. */
  lemma ParseGenresRoundTrip(gs: seq<string>)
    requires |gs| >= 1
    requires forall k :: 0 <= k < |gs| ==> Normal(gs[k])
    ensures ParseGenres(Join(gs, ',')) == gs
  {
    FilteredPiecesRoundTrip(gs, g => g != "");
  }
}
