/** Worked examples of the model on small catalogues: the inclusion and
    skipping of a Pokemon, the slot boundaries, and the two exceptions. */
module Scenarios {
  import opened Wrappers
  import opened AsciiCase
  import opened Pokemon
  import opened Collector

  const RedBlue: seq<string> := ["red", "blue"]

  const Bulbasaur: Entry :=
    Entry(1, "bulbasaur", ["red", "yellow"], 7, 69, 1, Some(64), ["grass", "poison"], Some("url1"))

  /** Bulbasaur's record: capitalised name, metres and kilograms, both type
      slots, and the other attributes copied. */
  function BulbasaurRecord(hash: string -> int): Record {
    Record(1, "Bulbasaur", hash("Bulbasaur"), Some(64), 0.7, 6.9, 6.9 / 0.49, 1,
           "grass", "poison", Some("url1"))
  }

  lemma BulbasaurTransform(hash: string -> int)
    ensures Transform(Bulbasaur, hash) == Success(BulbasaurRecord(hash))
  {
    BulbasaurName();
    BulbasaurMeasures();
  }

  lemma BulbasaurName()
    ensures Capitalize("bulbasaur") == "Bulbasaur"
  {
    assert Capitalize("bulbasaur") == [ToUpper('b')] + LowerAll("ulbasaur");
  }

  /** 7 dm and 69 hg are 0.7 m and 6.9 kg, with bmi 6.9 / 0.49. */
  lemma BulbasaurMeasures()
    ensures Tenths(7) == 0.7 && Tenths(69) == 6.9
    ensures Bmi(6.9, 0.7) == Success(6.9 / 0.49)
  {
    assert 0.7 * 0.7 == 0.49;
  }

  /** Bulbasaur played in red, so with red and blue configured the run
      yields its record and nothing else. */
  lemma BulbasaurIsKept(hash: string -> int)
    ensures Collect([Bulbasaur], RedBlue, PokemonTransform(hash)) == Success([BulbasaurRecord(hash)])
  {
    BulbasaurTransform(hash);
    assert RedBlue[0] in Bulbasaur.games;
    CollectLast([Bulbasaur], RedBlue, PokemonTransform(hash));
    assert [Bulbasaur][..0] == [];
    assert Collect([], RedBlue, PokemonTransform(hash)) == Success([]);
    assert [] + [BulbasaurRecord(hash)] == [BulbasaurRecord(hash)];
  }

  /** A Pokemon seen only in green is skipped and yields nothing. */
  lemma GreenOnlyIsSkipped(hash: string -> int)
    ensures Collect([Bulbasaur.(games := ["green"])], RedBlue, PokemonTransform(hash)) == Success([])
  {
    var e := Bulbasaur.(games := ["green"]);
    CollectLast([e], RedBlue, PokemonTransform(hash));
    assert [e][..0] == [];
  }

  /** With the script's own configuration, a Pokemon seen only in leafgreen
      is kept and one seen only in yellow is not. */
  lemma DefaultGamesFilter()
    ensures Keep(Bulbasaur.(games := ["leafgreen"]), DefaultValidGames)
    ensures !Keep(Bulbasaur.(games := ["yellow"]), DefaultValidGames)
  {
    assert DefaultValidGames[2] in ["leafgreen"];
  }

  /** One type leaves the second slot empty; three types keep only the first. */
  lemma SlotBoundaries()
    ensures Slots(["fire"]) == Success(("fire", ""))
    ensures Slots(["fire", "flying"]) == Success(("fire", "flying"))
    ensures Slots(["fire", "flying", "dragon"]) == Success(("fire", ""))
  {
  }

  /** An empty type list raises `IndexError`, a zero height raises
      `ZeroDivisionError`, and when both hold the division comes first. */
  lemma TransformErrors(hash: string -> int)
    ensures Transform(Bulbasaur.(types := []), hash) == Failure(IndexError)
    ensures Transform(Bulbasaur.(height := 0), hash) == Failure(ZeroDivisionError)
    ensures Transform(Bulbasaur.(height := 0, types := []), hash) == Failure(ZeroDivisionError)
  {
  }

  /** `str.capitalize` lowers everything after the first character. */
  lemma CapitalizeLowersTheRest()
    ensures Capitalize("mr-MIME") == "Mr-mime"
    ensures Capitalize("") == ""
  {
    assert Capitalize("mr-MIME") == "Mr-mime";
  }
}
