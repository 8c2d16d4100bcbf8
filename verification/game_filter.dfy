/** The inclusion test of `get_pokemon_data`: a Pokemon is kept when any of
    the configured games appears among the games it played in
    (GetPokemon.py:58-61). */
module GameFilter {

  /** Python's `any(item in games for item in validGames)`: walks the
      configured games in order and stops at the first one present. */
  function AnyValidGame(validGames: seq<string>, games: seq<string>): (r: bool)
    ensures r <==> exists i :: 0 <= i < |validGames| && validGames[i] in games
  {
    if |validGames| == 0 then false
    else if validGames[0] in games then true
    else
      var r := AnyValidGame(validGames[1..], games);
      assert r ==> exists i :: 0 <= i < |validGames[1..]| && validGames[1..][i] in games;
      assert forall i :: 1 <= i < |validGames| ==> validGames[i] == validGames[1..][i - 1];
      r
  }

  /** The test is a non-empty intersection of the two lists read as sets. */
  lemma AnyValidGameIsIntersection(validGames: seq<string>, games: seq<string>)
    ensures AnyValidGame(validGames, games) <==> (set g | g in validGames) * (set g | g in games) != {}
  {
    var both := (set g | g in validGames) * (set g | g in games);
    if AnyValidGame(validGames, games) {
      var i :| 0 <= i < |validGames| && validGames[i] in games;
      assert validGames[i] in both;
    }
    if both != {} {
      var g :| g in both;
      assert g in validGames && g in games;
    }
  }

  /** An empty list of configured games keeps no Pokemon. */
  lemma NoValidGamesKeepsNothing(games: seq<string>)
    ensures !AnyValidGame([], games)
  {
  }

  /** The test is symmetric in its two lists. */
  lemma AnyValidGameSymmetric(validGames: seq<string>, games: seq<string>)
    ensures AnyValidGame(validGames, games) == AnyValidGame(games, validGames)
  {
    AnyValidGameIsIntersection(validGames, games);
    AnyValidGameIsIntersection(games, validGames);
  }

  /** Configuring more games never drops a Pokemon that was kept before. */
  lemma AnyValidGameMonotone(validGames: seq<string>, more: seq<string>, games: seq<string>)
    requires forall g :: g in validGames ==> g in more
    requires AnyValidGame(validGames, games)
    ensures AnyValidGame(more, games)
  {
    var i :| 0 <= i < |validGames| && validGames[i] in games;
    assert validGames[i] in more;
  }
}
