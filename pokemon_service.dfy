/**
 * The catalogue service: create, list, look up, update and remove Pokémon
 * entries in the shared collection, turning store errors into HTTP errors.
 */
module Catalogue {
  import opened Wrappers
  import opened Text
  import opened Store

  /** The HTTP exceptions the service throws, with the value each one names. */
  datatype HttpError =
    | BadRequestDuplicate(no: Option<int>)  // a duplicate key; carries keyValue.no when the store reported one
    | BadRequestMissingId(id: Id)           // remove found no document with that id
    | NotFound(term: string)                // findOne exhausted its lookups
    | InternalServerError                   // any other store error, cause not echoed

  function StatusCode(e: HttpError): int {
    match e
    case BadRequestDuplicate(_) => 400
    case BadRequestMissingId(_) => 400
    case NotFound(_) => 404
    case InternalServerError => 500
  }

  /** The message-independent part of handleExceptions: which exception a store error becomes. */
  function HandleExceptions(error: StoreError): (r: HttpError)
    ensures r.BadRequestDuplicate? || r.InternalServerError?
    ensures r.BadRequestDuplicate? <==> IsDuplicateKey(error)
    ensures r.BadRequestDuplicate? ==> r.no == error.keyValueNo
    ensures StatusCode(r) == if IsDuplicateKey(error) then 400 else 500
  {
    if error.ServerError? && error.code == DuplicateKeyCode then BadRequestDuplicate(error.keyValueNo)
    else InternalServerError
  }

  // ---------------------------------------------------------------------------
  // The lookup by term
  // ---------------------------------------------------------------------------

  /** `!isNaN(+term)`, for terms written as decimal digits. */
  predicate IsNumeric(term: string) {
    IsDigits(term)
  }

  /**
   * A numeric term without leading zeros ("0" included) is the decimal form
   * of the number it is read as, so `findOne({no: term})` looks for the entry
   * whose number prints as the term.
   */
  lemma NumericTermIsDecimal(term: string)
    requires IsNumeric(term) && (|term| == 1 || term[0] != '0')
    ensures NatToDigits(ParseNat(term)) == term
  {
    DigitsToParseNat(term);
  }

  predicate IsHexDigit(c: char) {
    '0' <= c <= '9' || 'a' <= c <= 'f' || 'A' <= c <= 'F'
  }

  /** `isValidObjectId(term)`, for the 24-hex-digit form of an ObjectId. */
  predicate IsValidObjectId(term: string) {
    |term| == 24 && forall i :: 0 <= i < |term| ==> IsHexDigit(term[i])
  }

  /** Step 1 finds something: the term is numeric and some entry has that number. */
  predicate NoLookupHits(docs: map<Id, Pokemon>, term: string) {
    IsNumeric(term) && NoTaken(docs, ParseNat(term))
  }

  /**
   * The `_id` a query for `term` matches. Mongoose casts a valid ObjectId
   * string to an ObjectId, whose hex form is lowercase, so the hex digits are
   * compared without regard to case; any other term is kept as it is.
   */
  function IdKey(term: string): (key: Id)
    ensures |key| == |term|
    ensures IsValidObjectId(term) ==> key == ToLower(term) && IsValidObjectId(key) && IsLower(key)
    ensures !IsValidObjectId(term) ==> key == term
    ensures IsLower(term) ==> key == term
  {
    ToLowerFixesLower(term);
    if IsValidObjectId(term) then ToLower(term) else term
  }

  /** Step 2 finds something: the term is a valid id and some entry has that id, in any case. */
  predicate IdLookupHits(docs: map<Id, Pokemon>, term: string) {
    IsValidObjectId(term) && IdKey(term) in docs
  }

  /** Step 3 finds something: some entry's name is exactly the term. */
  predicate NameLookupHits(docs: map<Id, Pokemon>, term: string) {
    exists id :: id in docs && docs[id].name == term
  }

  predicate Resolvable(docs: map<Id, Pokemon>, term: string) {
    NoLookupHits(docs, term) || IdLookupHits(docs, term) || NameLookupHits(docs, term)
  }

  /**
   * `e` is an entry findOne may return for `term`: an entry of the table that
   * matches the term by the first lookup that finds anything.
   */
  predicate Resolves(docs: map<Id, Pokemon>, term: string, e: Entry)
    ensures Resolves(docs, term, e) ==> Resolvable(docs, term)
  {
    && IsEntryOf(docs, e)
    && if NoLookupHits(docs, term) then e.no == ParseNat(term)
       else if IdLookupHits(docs, term) then e.id == IdKey(term)
       else e.name == term
  }

  /**
   * The id lookup ignores the case of the hex digits: when the number lookup
   * misses, any spelling of a stored id finds the entry under that id.
   */
  lemma IdLookupIgnoresCase(docs: map<Id, Pokemon>, id: Id, term: string)
    requires id in docs && IsValidObjectId(term) && ToLower(term) == id
    requires !NoLookupHits(docs, term)
    ensures Resolvable(docs, term)
    ensures forall e :: Resolves(docs, term, e) ==> e == EntryAt(docs, id)
  {
  }

  /** A number lookup or an id lookup that hits resolves to one entry only. */
  lemma ResolvesUniquely(docs: map<Id, Pokemon>, term: string, e1: Entry, e2: Entry)
    requires NosUnique(docs)
    requires NoLookupHits(docs, term) || IdLookupHits(docs, term)
    requires Resolves(docs, term, e1) && Resolves(docs, term, e2)
    ensures e1 == e2
  {
    assert docs[e1.id].no == docs[e2.id].no || e1.id == e2.id;
  }

  /** Looking up the decimal form of an entry's number finds that entry and no other. */
  lemma {:induction false} NumberFindsEntry(docs: map<Id, Pokemon>, id: Id)
    requires NosUnique(docs)
    requires id in docs && docs[id].no >= 0
    ensures Resolvable(docs, NatToDigits(docs[id].no))
    ensures forall e :: Resolves(docs, NatToDigits(docs[id].no), e) ==> e == EntryAt(docs, id)
  {
    var term := NatToDigits(docs[id].no);
    ParseNatToDigits(docs[id].no);
    assert NoLookupHits(docs, term);
    forall e | Resolves(docs, term, e) ensures e == EntryAt(docs, id) {
      ResolvesUniquely(docs, term, e, EntryAt(docs, id));
    }
  }

  /** The name lookup compares exactly: a term with an upper-case letter never matches a lowercase name. */
  lemma NameLookupIsCaseSensitive(docs: map<Id, Pokemon>, term: string)
    requires forall id :: id in docs ==> IsLower(docs[id].name)
    requires !IsLower(term)
    ensures !NameLookupHits(docs, term)
  {
  }

  // ---------------------------------------------------------------------------
  // Normalisation and the update view
  // ---------------------------------------------------------------------------

  /** The create body with its name lowercased. */
  function LowercaseName(dto: Pokemon): (r: Pokemon)
    ensures r.no == dto.no
    ensures IsLower(r.name) && r.name == ToLower(dto.name)
  {
    dto.(name := ToLower(dto.name))
  }

  /** The update body with a non-empty name lowercased, as `if (dto?.name)` does. */
  function NormalizePatch(patch: Patch): (r: Patch)
    ensures r.no == patch.no
    ensures r.name.Some? <==> patch.name.Some?
    ensures r.name.Some? ==> r.name.value == ToLower(patch.name.value) && IsLower(r.name.value)
  {
    if patch.name.Some? && patch.name.value != "" then patch.(name := Some(ToLower(patch.name.value)))
    else patch
  }

  /** `{...entry, ...patch}`: the entry with every field the patch carries replaced. */
  function Overlay(e: Entry, patch: Patch): (r: Entry)
    ensures r.id == e.id
    ensures patch.no.Some? ==> r.no == patch.no.value
    ensures patch.no.None? ==> r.no == e.no
    ensures patch.name.Some? ==> r.name == patch.name.value
    ensures patch.name.None? ==> r.name == e.name
  {
    Entry(e.id, patch.no.GetOr(e.no), patch.name.GetOr(e.name))
  }

  /**
   * The view update returns is what the store holds afterwards: overlaying the
   * patch on the old entry gives the entry the store's write produced.
   */
  lemma OverlayIsStored(docs: map<Id, Pokemon>, id: Id, patch: Patch)
    requires id in docs && UpdateDoc(docs, id, patch).Success?
    ensures IsEntryOf(UpdateDoc(docs, id, patch).value, Overlay(EntryAt(docs, id), patch))
  {
  }

  // ---------------------------------------------------------------------------
  // The service
  // ---------------------------------------------------------------------------

  class PokemonService {
    const model: Collection
    /** The page size findAll uses when the caller gives no limit (configuration `defaultLimit`). */
    const defaultLimit: nat

    constructor (model: Collection, defaultLimit: nat)
      ensures this.model == model && this.defaultLimit == defaultLimit
    {
      this.model := model;
      this.defaultLimit := defaultLimit;
    }

    /**
     * create: store the body with its name lowercased. `assignedId` is the id
     * the driver gives the new document and `fault` a store error unrelated to
     * the table's contents.
     */
    method Create(dto: Pokemon, assignedId: Id, fault: Option<StoreError>) returns (r: Result<Entry, HttpError>)
      requires model.Valid()
      modifies model
      ensures model.Valid()
      ensures r.Success? ==>
        && r.value == Entry(assignedId, dto.no, ToLower(dto.name))
        && IsLower(r.value.name)
        && assignedId !in old(model.docs)
        && model.docs == old(model.docs)[assignedId := Pokemon(dto.no, ToLower(dto.name))]
      ensures r.Failure? ==> model.docs == old(model.docs)
      ensures r.Failure? ==> r.error.BadRequestDuplicate? || r.error.InternalServerError?
      ensures fault.None? ==> (r.Success? <==> assignedId !in old(model.docs) && !NoTaken(old(model.docs), dto.no))
      ensures fault.None? && assignedId !in old(model.docs) && NoTaken(old(model.docs), dto.no) ==>
        r == Failure(BadRequestDuplicate(Some(dto.no)))
      ensures fault.Some? ==> r == Failure(HandleExceptions(fault.value))
    {
      var lowered := LowercaseName(dto);
      var created := model.Create(lowered, assignedId, fault);
      if created.Failure? {
        return Failure(HandleExceptions(created.error));
      }
      r := Success(created.value);
    }

    /**
     * findAll: the entries in ascending order of `no`, skipping `offset` of
     * them and keeping at most `limit`; an absent limit is the configured
     * default and an absent offset is 0.
     */
    method FindAll(limit: Option<nat>, offset: Option<nat>) returns (page: seq<Entry>)
      requires model.Valid()
      ensures page == Page(Listing(model.docs), offset.GetOr(0), limit.GetOr(defaultLimit))
      ensures AscendingByNo(page)
      ensures forall i :: 0 <= i < |page| ==> IsEntryOf(model.docs, page[i])
      ensures limit.GetOr(defaultLimit) > 0 ==> |page| <= limit.GetOr(defaultLimit)
    {
      var lim := limit.GetOr(defaultLimit);
      var off := offset.GetOr(0);
      page := model.Find(off, lim);
      ListingAscending(model.docs);
      ListingContents(model.docs);
      forall i | 0 <= i < |page| ensures IsEntryOf(model.docs, page[i]) {
        assert page[i] in Listing(model.docs);
      }
    }

    /**
     * findOne: try the number when the term is numeric, then the id when
     * nothing was found and the term is a valid id, then the name when still
     * nothing was found; the first hit wins.
     */
    method FindOne(term: string) returns (r: Result<Entry, HttpError>)
      ensures r.Success? <==> Resolvable(model.docs, term)
      ensures r.Success? ==> Resolves(model.docs, term, r.value)
      ensures r.Failure? ==> r.error == NotFound(term)
    {
      var pokemon: Option<Entry> := None;
      if IsNumeric(term) {
        pokemon := model.FindOneByNo(ParseNat(term));
      }
      if pokemon.None? && IsValidObjectId(term) {
        pokemon := model.FindById(IdKey(term));
      }
      if pokemon.None? {
        pokemon := model.FindOneByName(term);
      }
      if pokemon.None? {
        return Failure(NotFound(term));
      }
      r := Success(pokemon.value);
    }

    /**
     * update: resolve the term as findOne does, lowercase a non-empty patch
     * name, write the patch, and return the old entry overlaid with the patch.
     */
    method Update(term: string, patch: Patch, fault: Option<StoreError>) returns (r: Result<Entry, HttpError>)
      requires model.Valid()
      modifies model
      ensures model.Valid()
      ensures r.Failure? ==> model.docs == old(model.docs)
      ensures r == Failure(NotFound(term)) <==> !Resolvable(old(model.docs), term)
      ensures r.Failure? ==> r.error.NotFound? || r.error.BadRequestDuplicate? || r.error.InternalServerError?
      ensures r.Success? ==>
        && r.value.id in old(model.docs)
        && Resolves(old(model.docs), term, EntryAt(old(model.docs), r.value.id))
        && r.value == Overlay(EntryAt(old(model.docs), r.value.id), NormalizePatch(patch))
        && model.docs == old(model.docs)[r.value.id := Pokemon(r.value.no, r.value.name)]
      ensures r.Failure? && r.error.BadRequestDuplicate? ==>
        fault.Some? || (patch.no.Some? && NoTaken(old(model.docs), patch.no.value) && r.error.no == patch.no)
      ensures (fault.None? && Resolvable(old(model.docs), term) &&
               (patch.no.None? || !NoTaken(old(model.docs), patch.no.value))) ==> r.Success?
      ensures fault.Some? && Resolvable(old(model.docs), term) ==> r == Failure(HandleExceptions(fault.value))
      ensures fault.None? && Resolvable(old(model.docs), term) && r.Failure? ==> r.error == BadRequestDuplicate(patch.no)
      ensures fault.None? && r.Failure? && r.error.BadRequestDuplicate? ==>
        patch.no.Some? && exists e :: Resolves(old(model.docs), term, e) && e.no != patch.no.value
    {
      var found := FindOne(term);
      if found.Failure? {
        return Failure(found.error);
      }
      var pokemon := found.value;
      var normalized := NormalizePatch(patch);
      var written := model.UpdateOne(pokemon.id, normalized, fault);
      if written.Fail? {
        return Failure(HandleExceptions(written.error));
      }
      OverlayIsStored(old(model.docs), pokemon.id, normalized);
      r := Success(Overlay(pokemon, normalized));
    }

    /**
     * remove: delete the entry whose `_id` matches the id (after the same cast
     * as the id lookup); deleting nothing is a bad request naming the id as given.
     */
    method Remove(id: string) returns (o: Outcome<HttpError>)
      requires model.Valid()
      modifies model
      ensures model.Valid()
      ensures o.Fail? <==> IdKey(id) !in old(model.docs)
      ensures o.Fail? ==> o.error == BadRequestMissingId(id) && model.docs == old(model.docs)
      ensures o.Pass? ==> model.docs == old(model.docs) - {IdKey(id)}
    {
      var deletedCount := model.DeleteOne(IdKey(id));
      if deletedCount == 0 {
        return Fail(BadRequestMissingId(id));
      }
      o := Pass;
    }
  }
}
