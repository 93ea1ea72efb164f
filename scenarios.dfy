/**
 * Callers of the two services that rely on nothing but the services'
 * contracts: each replays one promised behaviour, most on a concrete table.
 */
module Scenarios {
  import opened Wrappers
  import opened Text
  import opened Store
  import opened Catalogue
  import opened Seeding

  /** After a successful create, looking up the number in decimal returns exactly the created entry. */
  method CreateThenFindByNumber(service: PokemonService, dto: Pokemon, assignedId: Id)
    returns (created: Result<Entry, HttpError>, found: Result<Entry, HttpError>)
    requires service.model.Valid() && dto.no >= 0
    modifies service.model
    ensures created.Success? ==> found == created
  {
    created := service.Create(dto, assignedId, None);
    found := service.FindOne(NatToDigits(dto.no));
    if created.Success? {
      NumberFindsEntry(service.model.docs, assignedId);
    }
  }

  /** A created name is stored lowercase: the lowercase term finds it, the original casing does not. */
  method PikachuIsFoundLowercase(id: Id)
    returns (byName: Result<Entry, HttpError>, byMixedCase: Result<Entry, HttpError>)
    ensures byName == Success(Entry(id, 25, "pikachu"))
    ensures byMixedCase == Failure(NotFound("Pikachu"))
  {
    var model := new Collection(map[]);
    var service := new PokemonService(model, 10);
    assert ToLower("Pikachu") == "pikachu";
    var created := service.Create(Pokemon(25, "Pikachu"), id, None);
    byName := service.FindOne("pikachu");
    assert !IsValidObjectId("pikachu");
    byMixedCase := service.FindOne("Pikachu");
    assert !IsLower("Pikachu");
    NameLookupIsCaseSensitive(model.docs, "Pikachu");
  }

  /** A second create with the same number is a bad request naming it, and the store keeps only the first. */
  method DuplicateNumberIsRejected(id1: Id, id2: Id)
    returns (second: Result<Entry, HttpError>, stored: map<Id, Pokemon>)
    requires id1 != id2
    ensures second == Failure(BadRequestDuplicate(Some(25)))
    ensures stored == map[id1 := Pokemon(25, "pikachu")]
  {
    var model := new Collection(map[]);
    var service := new PokemonService(model, 10);
    assert ToLower("pikachu") == "pikachu";
    var first := service.Create(Pokemon(25, "pikachu"), id1, None);
    second := service.Create(Pokemon(25, "raichu"), id2, None);
    assert NoTaken(model.docs, 25);
    stored := model.docs;
  }

  /** Looking up any number on an empty table is a NotFound naming the term. */
  method EmptyTableFindsNothing() returns (found: Result<Entry, HttpError>)
    ensures found == Failure(NotFound("999999"))
  {
    var model := new Collection(map[]);
    var service := new PokemonService(model, 10);
    found := service.FindOne("999999");
  }

  /** The listing of four entries numbered 1 to 4 is those entries in that order. */
  lemma ListingOfFour(a: Id, b: Id, c: Id, d: Id, docs: map<Id, Pokemon>)
    requires a != b && a != c && a != d && b != c && b != d && c != d
    requires docs == map[a := Pokemon(1, "bulbasaur"), b := Pokemon(2, "ivysaur"),
                         c := Pokemon(3, "venusaur"), d := Pokemon(4, "charmander")]
    ensures Listing(docs) == [Entry(a, 1, "bulbasaur"), Entry(b, 2, "ivysaur"),
                              Entry(c, 3, "venusaur"), Entry(d, 4, "charmander")]
  {
    var ordered := [EntryAt(docs, a), EntryAt(docs, b), EntryAt(docs, c), EntryAt(docs, d)];
    assert docs.Keys == {a, b, c, d};
    assert ListsExactly(ordered, docs) by {
      forall e | IsEntryOf(docs, e) ensures e in ordered {
        assert e == EntryAt(docs, e.id);
      }
    }
    ListingIsTheAscendingOrder(docs, ordered);
  }

  /** A page of two from offset one over numbers 1 to 4 holds numbers 2 and 3, in that order. */
  method SecondPageOfTwo(a: Id, b: Id, c: Id, d: Id) returns (page: seq<Entry>)
    requires a != b && a != c && a != d && b != c && b != d && c != d
    ensures page == [Entry(b, 2, "ivysaur"), Entry(c, 3, "venusaur")]
  {
    var docs := map[a := Pokemon(1, "bulbasaur"), b := Pokemon(2, "ivysaur"),
                    c := Pokemon(3, "venusaur"), d := Pokemon(4, "charmander")];
    var model := new Collection(docs);
    var service := new PokemonService(model, 10);
    ListingOfFour(a, b, c, d, docs);
    page := service.FindAll(Some(2), Some(1));
  }

  /**
   * Updating the name of the entry a number finds to upper case returns it
   * lowercase, and looking the number up again finds the stored entry with the
   * lowercase name.
   */
  method UpdateLowercasesName(service: PokemonService, term: string)
    returns (updated: Result<Entry, HttpError>, found: Result<Entry, HttpError>)
    requires service.model.Valid() && NoLookupHits(service.model.docs, term)
    modifies service.model
    ensures updated.Success? && updated.value.name == "raichu"
    ensures found == updated
  {
    assert ToLower("RAICHU") == "raichu";
    updated := service.Update(term, Patch(None, Some("RAICHU")), None);
    assert IsEntryOf(service.model.docs, updated.value);
    assert NoLookupHits(service.model.docs, term);
    found := service.FindOne(term);
    ResolvesUniquely(service.model.docs, term, found.value, updated.value);
  }

  /**
   * A patch that repeats the entry's own number is no clash: sending the whole
   * entry back with a new name succeeds.
   */
  method UpdateWithOwnNumberSucceeds(id: Id) returns (updated: Result<Entry, HttpError>)
    ensures updated == Success(Entry(id, 1, "raichu"))
  {
    var model := new Collection(map[id := Pokemon(1, "pikachu")]);
    var service := new PokemonService(model, 10);
    assert ToLower("RAICHU") == "raichu";
    assert ParseNat("1") == 1;
    assert model.docs[id].no == 1;
    assert NoLookupHits(model.docs, "1");
    updated := service.Update("1", Patch(Some(1), Some("RAICHU")), None);
  }

  /** Removing an id that is not there is a bad request naming it, and nothing changes. */
  method RemoveMissingIdChangesNothing(service: PokemonService, id: string) returns (removed: Outcome<HttpError>)
    requires service.model.Valid() && IdKey(id) !in service.model.docs
    modifies service.model
    ensures removed == Fail(BadRequestMissingId(id))
    ensures service.model.docs == old(service.model.docs)
  {
    removed := service.Remove(id);
  }

  /** The one pokeapi result for bulbasaur yields number 1 and a batch that fits an empty table. */
  lemma BulbasaurResultFits(idFor: nat -> Id)
    ensures var results := [PokeResult("bulbasaur", "https://pokeapi.co/api/v2/pokemon/1/")];
      && AllUrlsNumbered(results)
      && Casted(DeriveEntries(results)) == [Pokemon(1, "bulbasaur")]
      && BatchFits(map[], Casted(DeriveEntries(results)), Ids(idFor, 1))
  {
    var prefix := "https://pokeapi.co/api/v2/pokemon";
    UrlYieldsDigits(prefix, "1");
    var url := prefix + "/" + "1" + "/";
    assert url == "https://pokeapi.co/api/v2/pokemon/1/";
    var results := [PokeResult("bulbasaur", url)];
    assert ParseNat("1") == 1;
    assert NoFromUrl(results[0].url) == Some(1);
    assert AllUrlsNumbered(results);
    var batch := Casted(DeriveEntries(results));
    assert batch == [Pokemon(1, "bulbasaur")];
  }

  /** Seeding with one result for bulbasaur leaves exactly {no: 1, name: "bulbasaur"}, whatever was there. */
  method SeedBulbasaur(model: Collection, idFor: nat -> Id) returns (r: Result<string, SeedError>)
    requires model.Valid()
    modifies model
    ensures r == Success(SeedAck)
    ensures model.docs == map[idFor(0) := Pokemon(1, "bulbasaur")]
  {
    var seeder := new SeedService(model);
    var results := [PokeResult("bulbasaur", "https://pokeapi.co/api/v2/pokemon/1/")];
    BulbasaurResultFits(idFor);
    r := seeder.ExecuteSeed(Some(results), idFor, None);
  }
}
