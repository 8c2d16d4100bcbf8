# GetPokemon core, modelled in Dafny

The repository's script, `GetPokemon.py`, reads every Pokemon in the pokeapi catalogue. It keeps those that played in at least one configured game ("red", "blue", "leafgreen", "white"). For each kept Pokemon it builds a flat record: `id`, capitalised `name`, `name_pii`, `base_experience`, `height`, `weight`, `bmi`, `order`, `slot1`, `slot2`, `sprite`. The records are then written to CSV and JSON.

This project models the decision-making part of the script as pure Dafny functions over immutable data:

- `wrappers.dfy` (`Wrappers`): `Option`, standing for Python's `None`, and `Result`, standing for a raised exception.
- `ascii_case.dfy` (`AsciiCase`): `str.capitalize` over ASCII, with its meaning stated against a case-insensitive equality relation.
- `game_filter.dfy` (`GameFilter`): the `any(item in games for item in valid_games)` inclusion test.
- `pokemon.dfy` (`Pokemon`): the catalogue entry, the record built by `create_dict_entry`, and the per-Pokemon transform of the loop body. The transform raises `ZeroDivisionError` for a zero height and `IndexError` for an empty type list, in the script's evaluation order. The file also holds the record's key list and its agreement with the CSV header.
- `collector.dfy` (`Collector`): the loop of `get_pokemon_data`. It is a functional definition (`Collect`) and the imperative loop as written (`GetPokemonData`), compared against a reference filter-then-map (`Filter`, `MapAll`, `AcceptedIndices`).
- `scenarios.dfy` (`Scenarios`): worked examples. These cover Bulbasaur kept and skipped, the default game list, the slot boundaries and both exceptions.

The code calls `str.capitalize`, which lower-cases everything after the first character. The model follows the code: `Capitalize("mr-MIME") == "Mr-mime"`.

## Model

| member | source | states |
|---|---|---|
| AsciiCase.ToUpper | GetPokemon.py:64 | The result equals the input up to case and is never an ASCII lower-case letter. |
| AsciiCase.ToLower | GetPokemon.py:64 | The result equals the input up to case and is never an ASCII upper-case letter. |
| AsciiCase.LowerAll | GetPokemon.py:64 | Same length as the input; each character equals the input's up to case and none is upper-case. |
| AsciiCase.Capitalize | GetPokemon.py:64 | The capitalised name has the input's length and equals it position by position up to case. Its first character is not lower-case and no later character is upper-case. |
| AsciiCase.CapitalizedUnique | GetPokemon.py:64 | Two capitalised strings that are equal up to case are identical, so the contract of `Capitalize` determines its result. |
| AsciiCase.CapitalizeFixedPoints | GetPokemon.py:64 | A name is left unchanged by capitalisation exactly when it is already in capitalised form. |
| AsciiCase.CapitalizeIdempotent | GetPokemon.py:64 | Capitalising twice equals capitalising once. |
| AsciiCase.CapitalizeIgnoresCase | GetPokemon.py:64-65 | Two names give the same stored name (and so the same `name_pii`) exactly when they are equal up to ASCII case. |
| GameFilter.AnyValidGame | GetPokemon.py:58-61 | True exactly when some configured game occurs in the Pokemon's game list. |
| GameFilter.AnyValidGameIsIntersection | GetPokemon.py:61 | The test is the same as a non-empty intersection of the two lists read as sets. |
| GameFilter.NoValidGamesKeepsNothing | GetPokemon.py:61 | An empty configured list accepts no Pokemon. |
| GameFilter.AnyValidGameSymmetric | GetPokemon.py:61 | Swapping the configured list and the game list does not change the outcome. |
| GameFilter.AnyValidGameMonotone | GetPokemon.py:61 | Configuring more games never rejects a Pokemon that was accepted before. |
| Pokemon.Slots | GetPokemon.py:73-76 | Raises `IndexError` exactly when there are no types. Otherwise slot 1 is the first type. Slot 2 is the second type when there are exactly two types, and is empty in every other case. |
| Pokemon.SlotsRoundTrip | GetPokemon.py:73-76 | For one or two non-empty type names, the slots give back the type list. |
| Pokemon.SlotsTruncate | GetPokemon.py:76 | With three or more types the second slot is empty and only the first type survives. |
| Pokemon.Tenths | GetPokemon.py:66-67 | Ten times the result is the raw integer, so height in metres and weight in kilograms rescale the catalogue's decimetres and hectograms. |
| Pokemon.Bmi | GetPokemon.py:68 | Raises `ZeroDivisionError` exactly when the height is zero. Otherwise bmi times height squared is the weight. |
| Pokemon.Transform | GetPokemon.py:63-77 | For a raw height below about 1.34·10^155 and a raw weight below about 1.8·10^309 in magnitude (see Left out), fails exactly on a zero height or an empty type list, and reports the division error first. On success, `id`, `order`, `base_experience` and `sprite` are copied unchanged. The name is the capitalised catalogue name and `name_pii` is the hash of that name. Height and weight are rescaled and, over exact reals, bmi times height squared is the weight. The slots follow the rules of `Slots`. |
| Pokemon.Fields | GetPokemon.py:27-39 | The record's key-value pairs, in insertion order, have as keys exactly the CSV writer's field names of line 106. |
| Pokemon.FieldsMatchHeader | GetPokemon.py:27-39 | Every header column is found in every record and holds the value at that column's position, so no row has a missing or extra key. |
| Pokemon.Slot2AlwaysPresent | GetPokemon.py:37 | The `slot2` key is present in every record, holding the empty string when there is no second slot. |
| Pokemon.FieldsRoundTrip | GetPokemon.py:27-39 | Reading a record back from its typed key-value pairs, as the JSON export keeps them, gives the same record. |
| Collector.Step | GetPokemon.py:55-97 | One turn of the loop keeps an exception already raised. Otherwise it keeps the records gathered so far as a prefix and adds at most one. A new record is the transform of a Pokemon that passes the game filter, and a new exception is that transform's exception. |
| Collector.Steps | GetPokemon.py:53-101 | Running the loop over further Pokemon keeps an exception already raised. Otherwise the records gathered so far stay at the front, followed by at most one record per further Pokemon. |
| Collector.Collect | GetPokemon.py:53-101 | The loop never returns more records than the catalogue holds. |
| Collector.CollectNext | GetPokemon.py:55-97 | After one more Pokemon, a rejected one leaves the list unchanged and an accepted one appends its record. If its transform raises, that exception is the result of the whole run. |
| Collector.AcceptedIndices | GetPokemon.py:55-61 | The accepted positions are strictly increasing, within the catalogue, and each one passes the game filter; there are never more of them than entries. |
| Collector.AcceptedIndicesComplete | GetPokemon.py:55-61 | Every position whose Pokemon passes the game filter is among the accepted positions. |
| Collector.NothingAccepted | GetPokemon.py:55-61 | When no Pokemon passes the filter there are no accepted positions. |
| Collector.Filter | GetPokemon.py:55-61 | The reference filter never yields more Pokemon than the catalogue holds. |
| Collector.FilterAtAcceptedIndices | GetPokemon.py:55-61 | The filtered Pokemon are, in order, exactly the Pokemon at the accepted positions. |
| Collector.CollectIsMapOfFilter | GetPokemon.py:53-101 | The loop equals the reference filter followed by the reference map. |
| Collector.MapAllSucceeds | GetPokemon.py:96-97 | The reference map succeeds exactly when every transform does, and then yields their records in order. |
| Collector.MapAllFailure | GetPokemon.py:63-77 | When the reference map raises, it raises the error of its first failing transform. |
| Collector.CollectIsFilterMap | GetPokemon.py:53-101 | The loop succeeds exactly when every accepted Pokemon transforms without raising. It then returns one record per accepted Pokemon, and the k-th record is the transform of the k-th accepted Pokemon in catalogue order. |
| Collector.CollectFailsAtFirstBadEntry | GetPokemon.py:55-77 | When the loop raises, it raises the exception of the first accepted Pokemon whose transform fails. Every accepted Pokemon before that one transforms cleanly. |
| Collector.CollectConcat | GetPokemon.py:97 | Records are only appended. On a concatenated catalogue the result is the first part's records followed by the second part's, and an exception in the first part is the result of the whole. |
| Collector.CollectKeepsFailure | GetPokemon.py:55-77 | An exception raised on a prefix of the catalogue ends the whole run with that exception. |
| Collector.RejectedEntryIsInvisible | GetPokemon.py:98-100 | Inserting a Pokemon that played in none of the configured games anywhere in the catalogue changes nothing. |
| Collector.NoDeduplication | GetPokemon.py:97 | A catalogue listed twice yields its records twice: nothing is deduplicated. |
| Collector.NoValidGamesNoRecords | GetPokemon.py:61 | With no configured games the result is an empty list. |
| Collector.GetPokemonData | GetPokemon.py:42-101 | The loop as written computes `Collect`. On success there is one record per accepted Pokemon, never more than the catalogue holds, each being `Transform` of the accepted Pokemon at the same rank. |
| Scenarios.BulbasaurTransform | GetPokemon.py:63-77 | Bulbasaur (height 7, weight 69, grass/poison) becomes "Bulbasaur" with height 0.7, weight 6.9, bmi 6.9/0.49 and both slots filled. |
| Scenarios.BulbasaurName | GetPokemon.py:64 | "bulbasaur" capitalises to "Bulbasaur". |
| Scenarios.BulbasaurMeasures | GetPokemon.py:66-68 | 7 dm and 69 hg become 0.7 m and 6.9 kg, and the bmi is 6.9 / 0.49. |
| Scenarios.BulbasaurIsKept | GetPokemon.py:55-97 | With red and blue configured, a catalogue holding only Bulbasaur (seen in red and yellow) yields exactly its record. |
| Scenarios.GreenOnlyIsSkipped | GetPokemon.py:98-100 | A Pokemon seen only in green yields no record. |
| Scenarios.DefaultGamesFilter | GetPokemon.py:18 | With the script's configured games, leafgreen is accepted and yellow is not. |
| Scenarios.SlotBoundaries | GetPokemon.py:75-76 | One type gives an empty second slot, two give both, three give an empty second slot. |
| Scenarios.TransformErrors | GetPokemon.py:68-75 | An empty type list raises `IndexError` and a zero height raises `ZeroDivisionError`; with both, the division error comes first. |
| Scenarios.CapitalizeLowersTheRest | GetPokemon.py:64 | "mr-MIME" capitalises to "Mr-mime"; the empty name stays empty. |

## Left out

- Fetching the catalogue through `pokebase` is network I/O behind a foreign library (GetPokemon.py:10, 49). This includes the lazy attribute reads of `game_indices`, `types` and `sprites` (lines 58, 73, 77). The catalogue is a `seq<Entry>` parameter whose game and type lists are already the version and type names.
- `hash(name)` is Python's builtin, randomised per run (line 65). It is the function parameter `hash: string -> int`, so only its determinism within one run is modelled.
- Pokemon.Tenths: computes an exact real; GetPokemon.py's binary floating-point rounding of `height / 10` and `weight / 10` is not modelled.
- Pokemon.Bmi: computes an exact real quotient; float rounding of `weight / (height**2)` is not modelled. Only the zero-height exception is. A quotient too large for a float does not raise in GetPokemon.py: it becomes `inf` (for example a raw weight of 10^308 with a raw height of 1), where the model keeps the exact quotient.
- Pokemon.Transform: GetPokemon.py raises `OverflowError` in two places the model does not. `height**2` (line 68) raises once the square of the height in metres exceeds the largest float (about 1.8·10^308), that is from a raw height of about 1.34·10^155 in magnitude, for example 10^156. `raw / 10` (lines 66-67) rounds the exact quotient and raises only once that quotient exceeds the largest float, that is from a raw value of about 1.8·10^309 in magnitude. The model's exact reals never overflow, so it returns a record there. Its contract describes GetPokemon.py only for a raw height below about 1.34·10^155 and a raw weight below about 1.8·10^309 in magnitude.
- AsciiCase.Capitalize: maps ASCII letters only. Python's `str.capitalize` also maps non-ASCII letters, title-cases the first character, and can change the length (for example `ß`). Non-ASCII characters are left unchanged here.
- `write_to_csv` and `write_to_json` (lines 103-115) are file I/O over the `csv` and `json` libraries. Only the agreement between the record's keys and the CSV header is modelled (`Fields`, `FieldsMatchHeader`), plus reading a record back from its typed key-value pairs as the JSON export keeps them (`FieldsRoundTrip`). The CSV file holds text only: `DictWriter` writes `None` as an empty string and numbers as their text, so a CSV row does not give the record back and no such round trip is claimed for it.
- The DEBUG progress and summary printing and the top-level script lines are console output and glue (lines 16, 78-93, 99, 118-123). The configured game list of line 18 is kept as `Collector.DefaultValidGames`.
- A failing fetch, or a failing attribute read inside `pokebase`, is not modelled. The loop body's own exceptions that are modelled are `ZeroDivisionError` and `IndexError`. `OverflowError` is not modelled (see `Pokemon.Transform` above).
