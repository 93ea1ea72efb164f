/**
 * The seed service: empty the collection, then refill it from the
 * name/URL pairs the external catalogue returned.
 */
module Seeding {
  import opened Wrappers
  import opened Text
  import opened Store

  /** One item of the fetched `results` list. */
  datatype PokeResult = PokeResult(name: string, url: string)

  /** Why a seed run stopped: the fetch failed, or the bulk insert did. */
  datatype SeedError =
    | FetchFailed
    | InsertFailed(cause: StoreError)

  /** What executeSeed returns on success. */
  const SeedAck := "seed executed"

  /**
   * `+segments[segments.length - 2]` with `segments = url.split('/')`: the
   * piece before the last one, read as a number. None stands for NaN: fewer
   * than two pieces, or a piece that is not a digit string.
   */
  function NoFromUrl(url: string): (no: Option<int>)
    ensures no.Some? ==> no.value >= 0
    ensures no.Some? <==> |Split(url, '/')| >= 2 && IsDigits(Split(url, '/')[|Split(url, '/')| - 2])
  {
    var segments := Split(url, '/');
    if |segments| < 2 then None
    else
      var segment := segments[|segments| - 2];
      if IsDigits(segment) then Some(ParseNat(segment)) else None
  }

  /**
   * A URL ending in "/" + digits + "/" yields the value of the digits: the
   * trailing slash leaves an empty last piece, so the digits are second to last.
   */
  lemma UrlYieldsDigits(prefix: string, digits: string)
    requires IsDigits(digits)
    ensures NoFromUrl(prefix + "/" + digits + "/") == Some(ParseNat(digits))
  {
    assert '/' !in digits;
    SplitAppendPiece(prefix, '/', digits);
    SplitAppendPiece(prefix + "/" + digits, '/', "");
    assert prefix + "/" + digits + "/" == prefix + "/" + digits + "/" + "";
  }

  /** The URL of catalogue number n, written in decimal, yields n. */
  lemma UrlRoundTrip(prefix: string, n: nat)
    ensures NoFromUrl(prefix + "/" + NatToDigits(n) + "/") == Some(n)
  {
    UrlYieldsDigits(prefix, NatToDigits(n));
    ParseNatToDigits(n);
  }

  /** `results.map(({name, url}) => ({no, name}))`. */
  function DeriveEntries(results: seq<PokeResult>): (docs: seq<NewDoc>)
    ensures |docs| == |results|
    ensures forall i :: 0 <= i < |results| ==>
      docs[i].name == results[i].name && docs[i].no == NoFromUrl(results[i].url)
  {
    seq(|results|, i requires 0 <= i < |results| => NewDoc(NoFromUrl(results[i].url), results[i].name))
  }

  /** Every fetched URL yields a number, so the derived batch casts. */
  predicate AllUrlsNumbered(results: seq<PokeResult>) {
    forall i :: 0 <= i < |results| ==> NoFromUrl(results[i].url).Some?
  }

  lemma DeriveEntriesCast(results: seq<PokeResult>)
    ensures AllCast(DeriveEntries(results)) <==> AllUrlsNumbered(results)
  {
    var docs := DeriveEntries(results);
    if AllCast(docs) {
      forall i | 0 <= i < |results| ensures NoFromUrl(results[i].url).Some? {
        assert docs[i].no.Some?;
      }
    }
  }

  class SeedService {
    const model: Collection

    constructor (model: Collection)
      ensures this.model == model
    {
      this.model := model;
    }

    /**
     * executeSeed: delete every entry, then insert the entries derived from
     * `fetched` (None when the HTTP request failed), the i-th under the id
     * idFor(i) the driver assigns. `fault` is a store error unrelated to the
     * table's contents.
     */
    method ExecuteSeed(fetched: Option<seq<PokeResult>>, idFor: nat -> Id, fault: Option<StoreError>)
      returns (r: Result<string, SeedError>)
      requires model.Valid()
      modifies model
      ensures model.Valid()
      ensures r.Failure? ==> model.docs == map[]
      ensures fetched.None? ==> r == Failure(FetchFailed)
      ensures fetched.Some? && fault.Some? ==> r == Failure(InsertFailed(fault.value))
      ensures fetched.Some? && fault.None? && !AllUrlsNumbered(fetched.value) ==> r == Failure(InsertFailed(CastError))
      ensures fetched.Some? && fault.None? && AllUrlsNumbered(fetched.value) ==>
        (r.Success? <==> BatchFits(map[], Casted(DeriveEntries(fetched.value)), Ids(idFor, |fetched.value|)))
      ensures r.Failure? && r.error.InsertFailed? && fault.None? && AllUrlsNumbered(fetched.value) ==>
        IsDuplicateKey(r.error.cause)
      ensures r.Success? ==>
        var results := fetched.value;
        && r.value == SeedAck
        && (forall k :: k in model.docs <==> exists i :: 0 <= i < |results| && k == idFor(i))
        && (forall i :: 0 <= i < |results| ==>
              && NoFromUrl(results[i].url).Some?
              && model.docs[idFor(i)] == Pokemon(NoFromUrl(results[i].url).value, results[i].name))
    {
      model.DeleteMany();
      if fetched.None? {
        return Failure(FetchFailed);
      }
      var pokemonList := DeriveEntries(fetched.value);
      DeriveEntriesCast(fetched.value);
      var inserted := model.InsertMany(pokemonList, idFor, fault);
      if fault.None? && AllCast(pokemonList) {
        InsertBatchSucceeds(map[], Casted(pokemonList), Ids(idFor, |pokemonList|));
      }
      if inserted.Fail? {
        return Failure(InsertFailed(inserted.error));
      }
      InsertBatchContents(map[], Casted(pokemonList), Ids(idFor, |pokemonList|));
      r := Success(SeedAck);
    }
  }
}
