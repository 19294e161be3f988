/**
 * The public games page: the distinct genres of the games, in order of first appearance,
 * and one group of games per genre.
 */
module GamesPage {
  import opened MockData

  predicate NoDuplicates(xs: seq<string>) {
    forall i, j :: 0 <= i < j < |xs| ==> xs[i] != xs[j]
  }

  /** `games.map(g => g.genre)` */
  function GenreList(games: seq<Game>): (r: seq<string>)
    ensures |r| == |games| && forall k :: 0 <= k < |games| ==> r[k] == games[k].genre
  {
    seq(|games|, k requires 0 <= k < |games| => games[k].genre)
  }

  /** `Array.from(new Set(xs))`: a set keeps its insertion order, so an element is kept
      where it first appears and later copies are dropped. */
  function Dedup(xs: seq<string>): (r: seq<string>)
    ensures NoDuplicates(r)
    ensures forall x :: x in r <==> x in xs
    ensures |r| <= |xs|
    decreases |xs|
  {
    if xs == [] then []
    else
      var d := Dedup(xs[..|xs| - 1]);
      var last := xs[|xs| - 1];
      assert forall x :: x in xs <==> x in xs[..|xs| - 1] || x == last by {
        assert xs == xs[..|xs| - 1] + [last];
      }
      if last in d then d else d + [last]
  }

  /** The position where x first appears in xs. */
  function FirstIndex(xs: seq<string>, x: string): (k: nat)
    requires x in xs
    ensures k < |xs| && xs[k] == x && x !in xs[..k]
    decreases |xs|
  {
    if xs[0] == x then 0
    else
      var k := FirstIndex(xs[1..], x);
      assert xs[..k + 1] == [xs[0]] + xs[1..][..k];
      k + 1
  }

  /** Looking in a prefix that already holds x finds the same first position. */
  lemma {:induction false} FirstIndexInPrefix(xs: seq<string>, p: nat, x: string)
    requires p <= |xs| && x in xs[..p]
    ensures FirstIndex(xs, x) == FirstIndex(xs[..p], x)
    decreases p
  {
    if xs[0] != x {
      assert xs[..p][1..] == xs[1..][..p - 1];
      FirstIndexInPrefix(xs[1..], p - 1, x);
    }
  }

  /** The de-duplicated list lists its elements in the order of their first appearance. */
  lemma {:induction false} DedupFirstOccurrenceOrder(xs: seq<string>)
    ensures forall i, j :: 0 <= i < j < |Dedup(xs)| ==>
      FirstIndex(xs, Dedup(xs)[i]) < FirstIndex(xs, Dedup(xs)[j])
    decreases |xs|
  {
    if xs != [] {
      var n := |xs| - 1;
      var front := xs[..n];
      var d := Dedup(front);
      var last := xs[n];
      DedupFirstOccurrenceOrder(front);
      var r := Dedup(xs);
      assert r == if last in d then d else d + [last];
      forall y | y in d
        ensures y in xs && FirstIndex(xs, y) == FirstIndex(front, y) && FirstIndex(xs, y) < n
      {
        assert y in front;
        FirstIndexInPrefix(xs, n, y);
      }
      if last !in d {
        forall k | 0 <= k < n ensures xs[k] != last {
          assert xs[k] == front[k];
        }
      }
      forall i, j | 0 <= i < j < |r|
        ensures r[i] in xs && r[j] in xs && FirstIndex(xs, r[i]) < FirstIndex(xs, r[j])
      {
        assert r[i] == d[i] && d[i] in d;
        if j < |d| {
          assert r[j] == d[j] && d[j] in d;
          assert FirstIndex(front, d[i]) < FirstIndex(front, d[j]);
        } else {
          assert r[j] == last == xs[n];
          var k := FirstIndex(xs, last);
          assert k >= n;
          assert FirstIndex(xs, d[i]) < n;
        }
      }
    }
  }

  /** `Array.from(new Set(games.map(g => g.genre)))` */
  function Genres(games: seq<Game>): (genres: seq<string>)
    ensures NoDuplicates(genres)
    ensures forall g :: g in genres <==> exists k :: 0 <= k < |games| && games[k].genre == g
    ensures |genres| <= |games|
  {
    var list := GenreList(games);
    assert forall g :: g in list <==> exists k :: 0 <= k < |games| && games[k].genre == g by {
      forall g | g in list ensures exists k :: 0 <= k < |games| && games[k].genre == g {
        var k :| 0 <= k < |list| && list[k] == g;
      }
    }
    Dedup(list)
  }

  /** The genres appear in the order of their first game. */
  lemma GenresInFirstAppearanceOrder(games: seq<Game>)
    ensures var genres := Genres(games);
      forall i, j :: 0 <= i < j < |genres| ==>
        FirstIndex(GenreList(games), genres[i]) < FirstIndex(GenreList(games), genres[j])
  {
    assert Genres(games) == Dedup(GenreList(games));
    DedupFirstOccurrenceOrder(GenreList(games));
  }

  /** `games.filter(g => g.genre === genre)` */
  function GenreGames(games: seq<Game>, genre: string): (r: seq<Game>)
    ensures |r| <= |games|
    ensures forall g :: g in r <==> g in games && g.genre == genre
    decreases |games|
  {
    if games == [] then []
    else (if games[0].genre == genre then [games[0]] else []) + GenreGames(games[1..], genre)
  }

  /** Every genre shown has at least one game. */
  lemma GroupsNonEmpty(games: seq<Game>, genre: string)
    requires genre in Genres(games)
    ensures |GenreGames(games, genre)| >= 1
  {
    var k :| 0 <= k < |games| && games[k].genre == genre;
    assert games[k] in GenreGames(games, genre);
  }

  /** The total of the `… TITLES` counts of the given genres. */
  function GroupSizes(games: seq<Game>, genres: seq<string>): nat
    decreases |genres|
  {
    if genres == [] then 0 else |GenreGames(games, genres[0])| + GroupSizes(games, genres[1..])
  }

  /** How often g occurs in xs. */
  function Occurrences(xs: seq<string>, g: string): nat
    decreases |xs|
  {
    if xs == [] then 0 else (if xs[0] == g then 1 else 0) + Occurrences(xs[1..], g)
  }

  lemma {:induction false} OccursOnce(xs: seq<string>, g: string)
    requires NoDuplicates(xs) && g in xs
    ensures Occurrences(xs, g) == 1
    decreases |xs|
  {
    if xs[0] == g {
      NotOccurring(xs[1..], g);
    } else {
      assert g in xs[1..];
      OccursOnce(xs[1..], g);
    }
  }

  lemma {:induction false} NotOccurring(xs: seq<string>, g: string)
    requires g !in xs
    ensures Occurrences(xs, g) == 0
    decreases |xs|
  {
    if xs != [] {
      assert xs[0] != g && g !in xs[1..];
      NotOccurring(xs[1..], g);
    }
  }

  /** Taking one game off the front lowers the group total by one per listed copy of its genre. */
  lemma {:induction false} GroupSizesCons(game: Game, rest: seq<Game>, genres: seq<string>)
    ensures GroupSizes([game] + rest, genres) == Occurrences(genres, game.genre) + GroupSizes(rest, genres)
    decreases |genres|
  {
    if genres != [] {
      assert ([game] + rest)[1..] == rest && ([game] + rest)[0] == game;
      GroupSizesCons(game, rest, genres[1..]);
    }
  }

  /** With a list of distinct genres that covers every game, the groups' sizes add up to
      the number of games. */
  lemma {:induction false} GroupsCoverGames(games: seq<Game>, genres: seq<string>)
    requires NoDuplicates(genres)
    requires forall k :: 0 <= k < |games| ==> games[k].genre in genres
    ensures GroupSizes(games, genres) == |games|
    decreases |games|
  {
    if games == [] {
      EmptyGroups(genres);
    } else {
      assert games == [games[0]] + games[1..];
      GroupSizesCons(games[0], games[1..], genres);
      OccursOnce(genres, games[0].genre);
      GroupsCoverGames(games[1..], genres);
    }
  }

  lemma {:induction false} EmptyGroups(genres: seq<string>)
    ensures GroupSizes([], genres) == 0
    decreases |genres|
  {
    if genres != [] {
      EmptyGroups(genres[1..]);
    }
  }

  /** The per-genre groups partition the games: their sizes add up to the `Total Games`
      figure, `games.length`. */
  lemma GroupsPartitionGames(games: seq<Game>)
    ensures GroupSizes(games, Genres(games)) == |games|
  {
    forall k | 0 <= k < |games| ensures games[k].genre in Genres(games) {
    }
    GroupsCoverGames(games, Genres(games));
  }
}
