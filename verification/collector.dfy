/** The accumulation loop of `get_pokemon_data` (GetPokemon.py:42-101): every
    Pokemon is checked against the configured games, the ones that pass are
    transformed, and their records are appended in catalogue order. The
    first exception raised by a transform ends the run.

    The loop is stated over any per-Pokemon `transform`; `GetPokemonData`
    runs it with `Pokemon.Transform`, the body of the script's `if`. */
module Collector {
  import opened Wrappers
  import opened GameFilter
  import opened Pokemon

  /** The games the script configures (GetPokemon.py:18). */
  const DefaultValidGames: seq<string> := ["red", "blue", "leafgreen", "white"]

  /** The loop's `if`: the Pokemon played in one of the configured games. */
  predicate Keep(e: Entry, validGames: seq<string>) {
    AnyValidGame(validGames, e.games)
  }

  /** One iteration of the loop on the records gathered so far. An exception
      already raised is kept; otherwise the records gathered so far are kept
      and at most one record, the transform of a kept Pokemon, is appended,
      or that transform's exception is raised. */
  function Step(acc: Result<seq<Record>, Error>, e: Entry, validGames: seq<string>,
                transform: Entry -> Result<Record, Error>): (r: Result<seq<Record>, Error>)
    ensures acc.Failure? ==> r == acc
    ensures r.Success? ==> acc.Success? && |acc.value| <= |r.value| <= |acc.value| + 1
                           && r.value[..|acc.value|] == acc.value
    ensures r.Success? && |r.value| > |acc.value| ==>
              Keep(e, validGames) && transform(e) == Success(r.value[|acc.value|])
    ensures acc.Success? && r.Failure? ==> Keep(e, validGames) && transform(e) == Failure(r.error)
  {
    if acc.Failure? || !Keep(e, validGames) then acc
    else match transform(e)
      case Failure(err) => Failure(err)
      case Success(rec) => Success(acc.value + [rec])
  }

  /** The iterations over `entries`, in order, starting from `acc`: an
      exception already raised is kept, and the records gathered so far stay
      at the front, followed by at most one record per entry. */
  function Steps(acc: Result<seq<Record>, Error>, entries: seq<Entry>, validGames: seq<string>,
                 transform: Entry -> Result<Record, Error>): (r: Result<seq<Record>, Error>)
    ensures acc.Failure? ==> r == acc
    ensures r.Success? ==> acc.Success? && |acc.value| <= |r.value| <= |acc.value| + |entries|
                           && r.value[..|acc.value|] == acc.value
    decreases |entries|
  {
    if |entries| == 0 then acc
    else Step(Steps(acc, entries[..|entries| - 1], validGames, transform), entries[|entries| - 1],
              validGames, transform)
  }

  /** The result of the loop on the catalogue `entries`: the list of records,
      or the exception that stopped the loop. */
  function Collect(entries: seq<Entry>, validGames: seq<string>, transform: Entry -> Result<Record, Error>)
    : (r: Result<seq<Record>, Error>)
    ensures r.Success? ==> |r.value| <= |entries|
  {
    Steps(Success([]), entries, validGames, transform)
  }

  predicate StrictlyIncreasing(idx: seq<nat>) {
    forall j, k :: 0 <= j < k < |idx| ==> idx[j] < idx[k]
  }

  /** The positions of the Pokemon that pass the game filter, in catalogue
      order. */
  function AcceptedIndices(entries: seq<Entry>, validGames: seq<string>): (idx: seq<nat>)
    ensures |idx| <= |entries|
    ensures StrictlyIncreasing(idx)
    ensures forall k :: 0 <= k < |idx| ==> idx[k] < |entries| && Keep(entries[idx[k]], validGames)
    decreases |entries|
  {
    if |entries| == 0 then []
    else
      var n := |entries| - 1;
      var prefix := AcceptedIndices(entries[..n], validGames);
      assert forall k :: 0 <= k < |prefix| ==> entries[..n][prefix[k]] == entries[prefix[k]];
      if Keep(entries[n], validGames) then prefix + [n] else prefix
  }

  /** Every position whose Pokemon passes the game filter is listed. */
  lemma {:induction false} AcceptedIndicesComplete(entries: seq<Entry>, validGames: seq<string>, i: nat)
    requires i < |entries| && Keep(entries[i], validGames)
    ensures i in AcceptedIndices(entries, validGames)
    decreases |entries|
  {
    var n := |entries| - 1;
    var prefix := AcceptedIndices(entries[..n], validGames);
    AcceptedIndicesOfPrefix(entries, validGames);
    if i < n {
      assert entries[..n][i] == entries[i];
      AcceptedIndicesComplete(entries[..n], validGames, i);
      var k :| 0 <= k < |prefix| && prefix[k] == i;
      assert AcceptedIndices(entries, validGames)[k] == i;
    } else {
      assert AcceptedIndices(entries, validGames)[|prefix|] == n;
    }
  }


  /** When no Pokemon passes the game filter, no position is listed. */
  lemma {:induction false} NothingAccepted(entries: seq<Entry>, validGames: seq<string>)
    requires forall i :: 0 <= i < |entries| ==> !Keep(entries[i], validGames)
    ensures AcceptedIndices(entries, validGames) == []
    decreases |entries|
  {
    if |entries| > 0 {
      var n := |entries| - 1;
      assert forall i :: 0 <= i < n ==> entries[..n][i] == entries[i];
      NothingAccepted(entries[..n], validGames);
    }
  }

  /** Dropping the last entry drops at most the last accepted position. */
  lemma AcceptedIndicesOfPrefix(entries: seq<Entry>, validGames: seq<string>)
    requires |entries| > 0
    ensures var n := |entries| - 1;
      var idx := AcceptedIndices(entries, validGames);
      var pidx := AcceptedIndices(entries[..n], validGames);
      && |idx| == |pidx| + (if Keep(entries[n], validGames) then 1 else 0)
      && (Keep(entries[n], validGames) ==> idx[|pidx|] == n)
      && forall k :: 0 <= k < |pidx| ==> idx[k] == pidx[k] && entries[..n][pidx[k]] == entries[idx[k]]
  {
  }

  /** The result of the loop is the result of the loop on all but the last
      entry, followed by one more iteration. */
  lemma CollectLast(entries: seq<Entry>, validGames: seq<string>,
                    transform: Entry -> Result<Record, Error>)
    requires |entries| > 0
    ensures var n := |entries| - 1;
      Collect(entries, validGames, transform)
        == Step(Collect(entries[..n], validGames, transform), entries[n], validGames, transform)
  {
  }

  /** One turn of the loop over `entries[i]`, after the first `i` entries
      gave `acc`: a rejected Pokemon leaves `acc`, an accepted one appends
      its record, or its exception ends the whole run. */
  lemma CollectNext(entries: seq<Entry>, i: nat, acc: seq<Record>, validGames: seq<string>,
                    transform: Entry -> Result<Record, Error>)
    requires i < |entries|
    requires Collect(entries[..i], validGames, transform) == Success(acc)
    ensures !Keep(entries[i], validGames) ==> Collect(entries[..i + 1], validGames, transform) == Success(acc)
    ensures Keep(entries[i], validGames) && transform(entries[i]).Success? ==>
              Collect(entries[..i + 1], validGames, transform) == Success(acc + [transform(entries[i]).value])
    ensures Keep(entries[i], validGames) && transform(entries[i]).Failure? ==>
              Collect(entries, validGames, transform) == Failure(transform(entries[i]).error)
  {
    CollectLast(entries[..i + 1], validGames, transform);
    assert entries[..i + 1][..i] == entries[..i];
    if Keep(entries[i], validGames) && transform(entries[i]).Failure? {
      CollectKeepsFailure(entries, i + 1, validGames, transform);
    }
  }

  /** The Pokemon that pass the game filter, in catalogue order: the
      reference filter the loop is compared against. */
  function Filter(entries: seq<Entry>, validGames: seq<string>): (kept: seq<Entry>)
    ensures |kept| <= |entries|
    decreases |entries|
  {
    if |entries| == 0 then []
    else
      var n := |entries| - 1;
      Filter(entries[..n], validGames) + (if Keep(entries[n], validGames) then [entries[n]] else [])
  }

  /** The reference map: transforms each Pokemon in turn and stops at the
      first exception. */
  function MapAll(es: seq<Entry>, transform: Entry -> Result<Record, Error>): Result<seq<Record>, Error>
    decreases |es|
  {
    if |es| == 0 then Success([])
    else
      var n := |es| - 1;
      match MapAll(es[..n], transform)
      case Failure(err) => Failure(err)
      case Success(rs) =>
        match transform(es[n])
        case Failure(err) => Failure(err)
        case Success(rec) => Success(rs + [rec])
  }

  /** The filtered Pokemon are exactly those at the accepted positions. */
  lemma {:induction false} FilterAtAcceptedIndices(entries: seq<Entry>, validGames: seq<string>)
    ensures var kept := Filter(entries, validGames);
      var idx := AcceptedIndices(entries, validGames);
      && |kept| == |idx|
      && forall k :: 0 <= k < |idx| ==> kept[k] == entries[idx[k]]
    decreases |entries|
  {
    if |entries| > 0 {
      var n := |entries| - 1;
      var front := entries[..n];
      FilterAtAcceptedIndices(front, validGames);
      AcceptedIndicesOfPrefix(entries, validGames);
      var kept, pkept := Filter(entries, validGames), Filter(front, validGames);
      var idx, pidx := AcceptedIndices(entries, validGames), AcceptedIndices(front, validGames);
      if Keep(entries[n], validGames) {
        assert kept == pkept + [entries[n]];
        forall k | 0 <= k < |idx|
          ensures kept[k] == entries[idx[k]]
        {
          if k < |pidx| {
            assert kept[k] == pkept[k] == front[pidx[k]];
          } else {
            assert idx[k] == n;
          }
        }
      } else {
        assert kept == pkept + [] == pkept;
        forall k | 0 <= k < |idx|
          ensures kept[k] == entries[idx[k]]
        {
          assert kept[k] == pkept[k] == front[pidx[k]];
        }
      }
    }
  }

  /** The loop computes the filter followed by the map. */
  lemma {:induction false} CollectIsMapOfFilter(entries: seq<Entry>, validGames: seq<string>, transform: Entry -> Result<Record, Error>)
    ensures Collect(entries, validGames, transform) == MapAll(Filter(entries, validGames), transform)
    decreases |entries|
  {
    if |entries| > 0 {
      var n := |entries| - 1;
      CollectIsMapOfFilter(entries[..n], validGames, transform);
      CollectLast(entries, validGames, transform);
      var kept := Filter(entries[..n], validGames);
      if Keep(entries[n], validGames) {
        var longer := kept + [entries[n]];
        assert Filter(entries, validGames) == longer;
        assert longer[..|kept|] == kept && longer[|kept|] == entries[n];
      } else {
        assert Filter(entries, validGames) == kept + [] == kept;
      }
    }
  }

  /** The map succeeds exactly when every transform does, and then it
      returns their records in order. */
  lemma {:induction false} MapAllSucceeds(es: seq<Entry>, transform: Entry -> Result<Record, Error>)
    ensures MapAll(es, transform).Success? <==> forall k :: 0 <= k < |es| ==> transform(es[k]).Success?
    ensures MapAll(es, transform).Success? ==>
      && |MapAll(es, transform).value| == |es|
      && forall k :: 0 <= k < |es| ==> transform(es[k]) == Success(MapAll(es, transform).value[k])
    decreases |es|
  {
    if |es| > 0 {
      var n := |es| - 1;
      MapAllSucceeds(es[..n], transform);
      assert forall k :: 0 <= k < n ==> es[..n][k] == es[k];
    }
  }

  /** When the map raises, it raises the exception of the first transform
      that fails. */
  lemma {:induction false} MapAllFailure(es: seq<Entry>, transform: Entry -> Result<Record, Error>)
    requires MapAll(es, transform).Failure?
    ensures exists k ::
              && 0 <= k < |es|
              && transform(es[k]) == Failure(MapAll(es, transform).error)
              && forall j :: 0 <= j < k ==> transform(es[j]).Success?
    decreases |es|
  {
    var n := |es| - 1;
    assert forall k :: 0 <= k < n ==> es[..n][k] == es[k];
    if MapAll(es[..n], transform).Failure? {
      MapAllFailure(es[..n], transform);
    } else {
      MapAllSucceeds(es[..n], transform);
      assert transform(es[n]) == Failure(MapAll(es, transform).error);
    }
  }

  /** The loop is a filter followed by a map: it succeeds exactly when every
      accepted Pokemon transforms without raising, and then it returns one
      record per accepted Pokemon, the k-th record coming from the k-th
      accepted Pokemon in catalogue order. */
  lemma CollectIsFilterMap(entries: seq<Entry>, validGames: seq<string>, transform: Entry -> Result<Record, Error>)
    ensures var idx := AcceptedIndices(entries, validGames);
      Collect(entries, validGames, transform).Success? <==>
        forall k :: 0 <= k < |idx| ==> transform(entries[idx[k]]).Success?
    ensures var r := Collect(entries, validGames, transform);
      var idx := AcceptedIndices(entries, validGames);
      r.Success? ==>
        && |r.value| == |idx|
        && forall k :: 0 <= k < |idx| ==> transform(entries[idx[k]]) == Success(r.value[k])
  {
    CollectIsMapOfFilter(entries, validGames, transform);
    FilterAtAcceptedIndices(entries, validGames);
    MapAllSucceeds(Filter(entries, validGames), transform);
  }

  /** When the loop raises, the exception is that of the first accepted
      Pokemon whose transform fails; every accepted Pokemon before it
      transforms without raising. */
  lemma CollectFailsAtFirstBadEntry(entries: seq<Entry>, validGames: seq<string>, transform: Entry -> Result<Record, Error>)
    requires Collect(entries, validGames, transform).Failure?
    ensures var idx := AcceptedIndices(entries, validGames);
      exists k :: 0 <= k < |idx|
        && transform(entries[idx[k]]) == Failure(Collect(entries, validGames, transform).error)
        && forall j :: 0 <= j < k ==> transform(entries[idx[j]]).Success?
  {
    CollectIsMapOfFilter(entries, validGames, transform);
    FilterAtAcceptedIndices(entries, validGames);
    var kept := Filter(entries, validGames);
    MapAllFailure(kept, transform);
    var idx := AcceptedIndices(entries, validGames);
    var k :| 0 <= k < |kept|
      && transform(kept[k]) == Failure(MapAll(kept, transform).error)
      && forall j :: 0 <= j < k ==> transform(kept[j]).Success?;
    assert forall j :: 0 <= j < k ==> transform(entries[idx[j]]).Success?;
  }

  /** Appending to the catalogue continues the loop from where it stopped. */
  lemma {:induction false} CollectConcatSteps(a: seq<Entry>, b: seq<Entry>, validGames: seq<string>,
                                              transform: Entry -> Result<Record, Error>)
    ensures Collect(a + b, validGames, transform) == Steps(Collect(a, validGames, transform), b, validGames, transform)
    decreases |b|
  {
    if |b| == 0 {
      assert a + b == a;
    } else {
      var m := |b| - 1;
      assert (a + b)[..|a + b| - 1] == a + b[..m];
      CollectConcatSteps(a, b[..m], validGames, transform);
    }
  }

  /** Puts `x` in front of the records of a successful result. */
  function Prepend(x: seq<Record>, r: Result<seq<Record>, Error>): Result<seq<Record>, Error> {
    match r
    case Success(y) => Success(x + y)
    case Failure(err) => Failure(err)
  }

  /** Records gathered so far are kept as a prefix of everything later. */
  lemma {:induction false} StepsFromRecords(x: seq<Record>, b: seq<Entry>, validGames: seq<string>,
                                            transform: Entry -> Result<Record, Error>)
    ensures Steps(Success(x), b, validGames, transform) == Prepend(x, Collect(b, validGames, transform))
    decreases |b|
  {
    if |b| == 0 {
      assert x + [] == x;
    } else {
      var m := |b| - 1;
      StepsFromRecords(x, b[..m], validGames, transform);
      CollectLast(b, validGames, transform);
      var pre := Collect(b[..m], validGames, transform);
      if pre.Success? && Keep(b[m], validGames) && transform(b[m]).Success? {
        assert (x + pre.value) + [transform(b[m]).value]
            == x + (pre.value + [transform(b[m]).value]);
      }
    }
  }

  /** Records are only ever appended: the result on a concatenated catalogue
      is the records of the first part followed by those of the second, and
      an exception in the first part is the exception of the whole. */
  lemma CollectConcat(a: seq<Entry>, b: seq<Entry>, validGames: seq<string>, transform: Entry -> Result<Record, Error>)
    ensures Collect(a, validGames, transform).Failure? ==>
      Collect(a + b, validGames, transform) == Collect(a, validGames, transform)
    ensures Collect(a, validGames, transform).Success? ==>
      Collect(a + b, validGames, transform)
        == Prepend(Collect(a, validGames, transform).value, Collect(b, validGames, transform))
  {
    CollectConcatSteps(a, b, validGames, transform);
    match Collect(a, validGames, transform)
    case Failure(_) =>
    case Success(x) => StepsFromRecords(x, b, validGames, transform);
  }

  /** An exception raised on a prefix of the catalogue is the result of the
      whole loop. */
  lemma CollectKeepsFailure(entries: seq<Entry>, i: nat, validGames: seq<string>,
                            transform: Entry -> Result<Record, Error>)
    requires i <= |entries|
    requires Collect(entries[..i], validGames, transform).Failure?
    ensures Collect(entries, validGames, transform) == Collect(entries[..i], validGames, transform)
  {
    CollectConcat(entries[..i], entries[i..], validGames, transform);
    assert entries[..i] + entries[i..] == entries;
  }

  /** A Pokemon that played in none of the configured games contributes
      nothing, wherever it sits in the catalogue. */
  lemma RejectedEntryIsInvisible(a: seq<Entry>, e: Entry, b: seq<Entry>, validGames: seq<string>,
                                 transform: Entry -> Result<Record, Error>)
    requires !Keep(e, validGames)
    ensures Collect(a + [e] + b, validGames, transform) == Collect(a + b, validGames, transform)
  {
    CollectConcat(a + [e], b, validGames, transform);
    CollectConcat(a, [e], validGames, transform);
    CollectConcat(a, b, validGames, transform);
    CollectLast([e], validGames, transform);
    assert [e][..0] == [];
    match Collect(a, validGames, transform)
    case Failure(_) =>
    case Success(x) => assert x + [] == x;
  }

  /** Nothing is deduplicated: a catalogue listed twice yields its records
      twice. */
  lemma NoDeduplication(entries: seq<Entry>, validGames: seq<string>, transform: Entry -> Result<Record, Error>)
    requires Collect(entries, validGames, transform).Success?
    ensures Collect(entries + entries, validGames, transform)
      == Success(Collect(entries, validGames, transform).value + Collect(entries, validGames, transform).value)
  {
    CollectConcat(entries, entries, validGames, transform);
  }

  /** With no configured games, the result is an empty list. */
  lemma NoValidGamesNoRecords(entries: seq<Entry>, transform: Entry -> Result<Record, Error>)
    ensures Collect(entries, [], transform) == Success([])
  {
    NothingAccepted(entries, []);
    CollectIsFilterMap(entries, [], transform);
  }

  /** The body of the script's `if`, with `hash` standing for Python's
      builtin `hash`. */
  function PokemonTransform(hash: string -> int): Entry -> Result<Record, Error> {
    e => Transform(e, hash)
  }

  /** `get_pokemon_data` as GetPokemon.py writes it: a loop that appends each
      accepted Pokemon's record to `list_of_dict` and stops at the first
      exception. `allPokemons` stands for the catalogue listing fetched from
      the API. The result is the filter-then-map of the catalogue, in
      catalogue order. */
  method GetPokemonData(allPokemons: seq<Entry>, validGames: seq<string>, hash: string -> int)
    returns (r: Result<seq<Record>, Error>)
    ensures r == Collect(allPokemons, validGames, PokemonTransform(hash))
    ensures var idx := AcceptedIndices(allPokemons, validGames);
      r.Success? ==>
        && |r.value| == |idx| <= |allPokemons|
        && forall k :: 0 <= k < |idx| ==> Transform(allPokemons[idx[k]], hash) == Success(r.value[k])
  {
    var transform := PokemonTransform(hash);
    var listOfDict: seq<Record> := [];
    for i := 0 to |allPokemons|
      invariant Collect(allPokemons[..i], validGames, transform) == Success(listOfDict)
    {
      var pokemon := allPokemons[i];
      CollectNext(allPokemons, i, listOfDict, validGames, transform);
      if AnyValidGame(validGames, pokemon.games) {
        var rec := transform(pokemon);
        if rec.Failure? {
          return Failure(rec.error);
        }
        listOfDict := listOfDict + [rec.value];
      }
    }
    assert allPokemons[..|allPokemons|] == allPokemons;
    CollectIsFilterMap(allPokemons, validGames, transform);
    r := Success(listOfDict);
  }
}
