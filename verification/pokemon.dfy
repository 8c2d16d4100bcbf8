/** One Pokemon as the catalogue reports it, the record `get_pokemon_data`
    builds for it, and the per-Pokemon transform between the two
    (GetPokemon.py:24-39, 63-77, 96). */
module Pokemon {
  import opened Wrappers
  import opened AsciiCase

  /** A catalogue entry, with the attributes the transform reads. `games` are
      the version names of its game indices and `types` the names of its
      types, both in the catalogue's order; `height` and `weight` are the raw
      integers in decimetres and hectograms. */
  datatype Entry = Entry(
    id: int,
    name: string,
    games: seq<string>,
    height: int,
    weight: int,
    order: int,
    baseExperience: Option<int>,
    types: seq<string>,
    sprite: Option<string>)

  /** The dictionary built by `create_dict_entry`, one field per key. The
      measurements are exact reals: GetPokemon.py's float rounding is not
      modelled. */
  datatype Record = Record(
    id: int,
    name: string,
    namePii: int,
    baseExperience: Option<int>,
    height: real,
    weight: real,
    bmi: real,
    order: int,
    slot1: string,
    slot2: string,
    sprite: Option<string>)

  /** The exceptions of the transform that the model raises. The
      `OverflowError` of `height**2` (from a raw height of about 1.34e155)
      and of `raw / 10` (from a raw value of about 1.8e309) is not modelled. */
  datatype Error =
    | ZeroDivisionError  // `weight / (height**2)` with a zero height
    | IndexError         // `slots[0]` on an empty type list

  /** The two type slots of a Pokemon: the first type, and the second one
      only when there are exactly two types. */
  function Slots(types: seq<string>): (r: Result<(string, string), Error>)
    ensures r.Failure? <==> |types| == 0
    ensures r.Failure? ==> r.error == IndexError
    ensures r.Success? ==> r.value.0 == types[0]
    ensures r.Success? ==> (r.value.1 != "" ==> |types| == 2 && r.value.1 == types[1])
    ensures r.Success? && |types| == 2 ==> r.value.1 == types[1]
  {
    if |types| == 0 then Failure(IndexError)
    else Success((types[0], if |types| == 2 then types[1] else ""))
  }

  /** The type list a pair of slots stands for: an empty second slot means
      the Pokemon has one type. */
  function TypesOfSlots(slot1: string, slot2: string): (types: seq<string>)
    ensures |types| == (if slot2 == "" then 1 else 2)
    ensures types[0] == slot1
  {
    if slot2 == "" then [slot1] else [slot1, slot2]
  }

  /** Slots lose nothing for one or two non-empty type names. */
  lemma SlotsRoundTrip(types: seq<string>)
    requires 1 <= |types| <= 2
    requires forall k :: 0 <= k < |types| ==> types[k] != ""
    ensures Slots(types).Success?
    ensures TypesOfSlots(Slots(types).value.0, Slots(types).value.1) == types
  {
  }

  /** Three or more types keep only the first: the second slot stays empty
      and the remaining types are dropped. */
  lemma SlotsTruncate(types: seq<string>)
    requires |types| >= 3
    ensures Slots(types) == Success((types[0], ""))
    ensures TypesOfSlots(Slots(types).value.0, Slots(types).value.1) == types[..1]
  {
  }

  /** Python's `x / 10` on a raw integer attribute: decimetres to metres
      for the height, hectograms to kilograms for the weight. */
  function Tenths(raw: int): (x: real)
    ensures x * 10.0 == raw as real
  {
    raw as real / 10.0
  }

  /** `weight / (height**2)`, raising on a zero height. */
  function Bmi(weight: real, height: real): (r: Result<real, Error>)
    ensures r.Failure? <==> height == 0.0
    ensures r.Failure? ==> r.error == ZeroDivisionError
    ensures r.Success? ==> r.value * (height * height) == weight
  {
    if height == 0.0 then Failure(ZeroDivisionError)
    else Success(weight / (height * height))
  }

  /** The body of the loop in `get_pokemon_data` for a Pokemon that passed
      the game filter: the attributes are read in the script's order, so a
      zero height raises before an empty type list does. `hash` stands for
      Python's run-scoped builtin `hash` on strings. */
  function Transform(e: Entry, hash: string -> int): (r: Result<Record, Error>)
    ensures r.Failure? <==> e.height == 0 || |e.types| == 0
    ensures r.Failure? ==> r.error == (if e.height == 0 then ZeroDivisionError else IndexError)
    ensures r.Success? ==>
      && r.value.id == e.id
      && r.value.order == e.order
      && r.value.baseExperience == e.baseExperience
      && r.value.sprite == e.sprite
    ensures r.Success? ==>
      && SeqSameIgnoringCase(e.name, r.value.name)
      && IsCapitalized(r.value.name)
      && r.value.namePii == hash(r.value.name)
    ensures r.Success? ==>
      && r.value.height * 10.0 == e.height as real
      && r.value.weight * 10.0 == e.weight as real
      && r.value.bmi * (r.value.height * r.value.height) == r.value.weight
    ensures r.Success? ==>
      && r.value.slot1 == e.types[0]
      && (|e.types| == 2 ==> r.value.slot2 == e.types[1])
      && (|e.types| != 2 ==> r.value.slot2 == "")
  {
    var name := Capitalize(e.name);
    var namePii := hash(name);
    var height := Tenths(e.height);
    var weight := Tenths(e.weight);
    var bmi :- Bmi(weight, height);
    var slots :- Slots(e.types);
    Success(Record(e.id, name, namePii, e.baseExperience, height, weight, bmi,
                   e.order, slots.0, slots.1, e.sprite))
  }

  /** A dictionary value as the exporters see it. */
  datatype Value = Int(i: int) | Str(s: string) | Num(x: real) | Null

  function IntOrNull(o: Option<int>): Value {
    match o
    case Some(i) => Int(i)
    case None => Null
  }

  function StrOrNull(o: Option<string>): Value {
    match o
    case Some(s) => Str(s)
    case None => Null
  }

  /** The field names handed to the CSV writer (GetPokemon.py:106). */
  const CsvHeader: seq<string> :=
    ["id", "name", "name_pii", "base_experience", "height", "weight", "bmi",
     "order", "slot1", "slot2", "sprite"]

  /** The dictionary literal of `create_dict_entry`, as its key-value pairs in
      insertion order. Its keys, in order, are exactly the CSV writer's field
      names. */
  function Fields(r: Record): (fs: seq<(string, Value)>)
    ensures Keys(fs) == CsvHeader
  {
    var fs := [
      ("id", Int(r.id)),
      ("name", Str(r.name)),
      ("name_pii", Int(r.namePii)),
      ("base_experience", IntOrNull(r.baseExperience)),
      ("height", Num(r.height)),
      ("weight", Num(r.weight)),
      ("bmi", Num(r.bmi)),
      ("order", Int(r.order)),
      ("slot1", Str(r.slot1)),
      ("slot2", Str(r.slot2)),
      ("sprite", StrOrNull(r.sprite)) ];
    assert Keys(fs) == CsvHeader;
    fs
  }

  function Keys(fields: seq<(string, Value)>): (ks: seq<string>)
    ensures |ks| == |fields|
    ensures forall k :: 0 <= k < |fields| ==> ks[k] == fields[k].0
  {
    seq(|fields|, k requires 0 <= k < |fields| => fields[k].0)
  }

  /** The value stored under `key`, as a dictionary lookup would return it. */
  function Lookup(fields: seq<(string, Value)>, key: string): (v: Option<Value>)
    ensures v.Some? <==> exists k :: 0 <= k < |fields| && fields[k].0 == key
    ensures v.Some? ==> exists k :: 0 <= k < |fields| && fields[k] == (key, v.value)
  {
    if |fields| == 0 then None
    else if fields[0].0 == key then
      assert fields[0] == (key, fields[0].1);
      Some(fields[0].1)
    else
      var v := Lookup(fields[1..], key);
      assert forall k :: 1 <= k < |fields| ==> fields[k] == fields[1..][k - 1];
      v
  }

  /** Every record has the same keys in the same order, and that order is
      exactly the CSV header, so each row fills every column and has no key
      outside the header. */
  lemma FieldsMatchHeader(r: Record)
    ensures Keys(Fields(r)) == CsvHeader
    ensures forall k :: 0 <= k < |CsvHeader| ==> Lookup(Fields(r), CsvHeader[k]) == Some(Fields(r)[k].1)
  {
    var fs := Fields(r);
    forall k | 0 <= k < |CsvHeader|
      ensures Lookup(fs, CsvHeader[k]) == Some(fs[k].1)
    {
      LookupFirst(fs, k);
    }
  }

  /** With distinct keys, looking up the key at position `k` finds the value
      at position `k`. */
  lemma {:induction false} LookupFirst(fields: seq<(string, Value)>, k: nat)
    requires k < |fields|
    requires forall j :: 0 <= j < k ==> fields[j].0 != fields[k].0
    ensures Lookup(fields, fields[k].0) == Some(fields[k].1)
    decreases k
  {
    if k > 0 {
      LookupFirst(fields[1..], k - 1);
    }
  }

  /** The `slot2` key is present in every record, holding the empty string
      when the Pokemon has no second slot. */
  lemma Slot2AlwaysPresent(r: Record)
    ensures Lookup(Fields(r), "slot2") == Some(Str(r.slot2))
  {
    FieldsMatchHeader(r);
    assert CsvHeader[9] == "slot2";
  }

  /** The inverse of `IntOrNull`: `None` for a value of any other kind. */
  function IntOrNullOf(v: Value): Option<Option<int>> {
    match v
    case Int(i) => Some(Some(i))
    case Null => Some(None)
    case _ => None
  }

  /** The inverse of `StrOrNull`: `None` for a value of any other kind. */
  function StrOrNullOf(v: Value): Option<Option<string>> {
    match v
    case Str(s) => Some(Some(s))
    case Null => Some(None)
    case _ => None
  }

  /** Reads a record back from its typed key-value pairs, as a consumer of the
      JSON export would; fails on any other key list or value kind. */
  function FromFields(fields: seq<(string, Value)>): (r: Option<Record>)
    ensures r.Some? ==> Keys(fields) == CsvHeader
  {
    if Keys(fields) != CsvHeader then None
    else
      var baseExperience := IntOrNullOf(fields[3].1);
      var sprite := StrOrNullOf(fields[10].1);
      if && fields[0].1.Int? && fields[1].1.Str? && fields[2].1.Int? && baseExperience.Some?
         && fields[4].1.Num? && fields[5].1.Num? && fields[6].1.Num? && fields[7].1.Int?
         && fields[8].1.Str? && fields[9].1.Str? && sprite.Some?
      then
        Some(Record(fields[0].1.i, fields[1].1.s, fields[2].1.i, baseExperience.value,
                    fields[4].1.x, fields[5].1.x, fields[6].1.x, fields[7].1.i,
                    fields[8].1.s, fields[9].1.s, sprite.value))
      else None
  }

  /** Exporting a record and reading it back gives the same record. */
  lemma FieldsRoundTrip(r: Record)
    ensures FromFields(Fields(r)) == Some(r)
  {
  }
}
