/**
 * `consultarApiCep`: before a person is created or updated, every address in
 * the request is looked up, in order, at the postal-code service
 * (`GET /cep/v1/{CEP}`), and the state, city and street it returns are
 * merged into that address. The first failed lookup rejects the request
 * (`req.reject` throws), so no later address is looked up.
 *
 * The HTTP call is the parameter `lookup`: the answer the service gives for
 * a postal code.
 */
module CepEnrichment {
  import opened Wrappers
  import opened Messages
  import opened Entities

  /** The fields destructured from a successful response; a missing one is `undefined`. */
  datatype CepInfo = CepInfo(state: Option<string>, city: Option<string>, street: Option<string>)

  /** What a failed call throws: an optional `statusCode` and a `message` (`""` when it has none). */
  datatype LookupError = LookupError(statusCode: Option<int>, message: string)

  datatype Lookup = Found(info: CepInfo) | Failed(error: LookupError)

  /** `req.reject(status, message)`. */
  datatype Rejection = Rejection(status: int, message: Message)

  /**
   * The request's address list after the handler, the postal codes it looked
   * up (in order), and the rejection it raised, if any.
   */
  datatype Enrichment = Enrichment(
    enderecos: Option<seq<Address>>,
    queried: seq<string>,
    rejection: Option<Rejection>)

  /** `{...endereco, uf, cidade, rua}`. */
  function Merge(a: Address, info: CepInfo): (r: Address)
    ensures r.cep == a.cep && r.extra == a.extra
    ensures r.uf == info.state && r.cidade == info.city && r.rua == info.street
  {
    a.(uf := info.state, cidade := info.city, rua := info.street)
  }

  /** `req.reject(error.statusCode || 500, error.message || localized ERROR_API_CEP)`. */
  function RejectionFor(e: LookupError): (r: Rejection)
    ensures e.statusCode.Some? && e.statusCode.value != 0 ==> r.status == e.statusCode.value
    ensures e.statusCode.None? || e.statusCode.value == 0 ==> r.status == 500
    ensures r.message == OrLocalized(e.message, ErrorApiCep)
  {
    var status := if e.statusCode.Some? && e.statusCode.value != 0 then e.statusCode.value else 500;
    Rejection(status, OrLocalized(e.message, ErrorApiCep))
  }

  /** The postal codes of a list of addresses, in order. */
  function Ceps(enderecos: seq<Address>): (ceps: seq<string>)
    ensures |ceps| == |enderecos|
    ensures forall j :: 0 <= j < |enderecos| ==> ceps[j] == enderecos[j].cep
  {
    if enderecos == [] then [] else [enderecos[0].cep] + Ceps(enderecos[1..])
  }

  /** The position of the first address at or after `i` whose lookup fails, or `|enderecos|` if none does. */
  function FirstFailure(enderecos: seq<Address>, i: nat, lookup: string -> Lookup): (k: nat)
    requires i <= |enderecos|
    ensures i <= k <= |enderecos|
    ensures forall j :: i <= j < k ==> lookup(enderecos[j].cep).Found?
    ensures k < |enderecos| ==> lookup(enderecos[k].cep).Failed?
    decreases |enderecos| - i
  {
    if i == |enderecos| then i
    else if lookup(enderecos[i].cep).Failed? then i
    else FirstFailure(enderecos, i + 1, lookup)
  }

  /** The first failure depends only on the postal codes from `i` on. */
  lemma {:induction false} FirstFailureReadsOnlyCeps(a: seq<Address>, b: seq<Address>, i: nat, lookup: string -> Lookup)
    requires i <= |a| == |b|
    requires forall j :: i <= j < |a| ==> a[j].cep == b[j].cep
    ensures FirstFailure(a, i, lookup) == FirstFailure(b, i, lookup)
    decreases |a| - i
  {
    if i < |a| && lookup(a[i].cep).Found? {
      FirstFailureReadsOnlyCeps(a, b, i + 1, lookup);
    }
  }

  /** The address a successful lookup produces (the address itself if the lookup fails). */
  function Enriched(a: Address, lookup: string -> Lookup): Address
  {
    match lookup(a.cep)
    case Found(info) => Merge(a, info)
    case Failed(_) => a
  }

  /**
   * The `for` loop from iteration `i` on: addresses before the first failure
   * are replaced in place by their enriched form, and the loop stops at the
   * first failure with the corresponding rejection.
   */
  function EnrichFrom(enderecos: seq<Address>, i: nat, lookup: string -> Lookup): (r: Enrichment)
    requires i <= |enderecos|
    ensures r.enderecos.Some? && |r.enderecos.value| == |enderecos|
    ensures forall j :: 0 <= j < i ==> r.enderecos.value[j] == enderecos[j]
    decreases |enderecos| - i
  {
    if i == |enderecos| then Enrichment(Some(enderecos), [], None)
    else
      var cep := enderecos[i].cep;
      match lookup(cep)
      case Failed(e) =>
        Enrichment(Some(enderecos), [cep], Some(RejectionFor(e)))
      case Found(info) =>
        var rest := EnrichFrom(enderecos[i := Merge(enderecos[i], info)], i + 1, lookup);
        Enrichment(rest.enderecos, [cep] + rest.queried, rest.rejection)
  }

  /** What the loop from iteration `i` leaves in the list, stated against the first failing position. */
  ghost predicate EnrichedContents(enderecos: seq<Address>, i: nat, lookup: string -> Lookup, out: seq<Address>)
    requires i <= |enderecos|
  {
    var k := FirstFailure(enderecos, i, lookup);
    && |out| == |enderecos|
    && (forall j :: 0 <= j < i ==> out[j] == enderecos[j])
    && (forall j :: i <= j < k ==> out[j] == Enriched(enderecos[j], lookup))
    && (forall j :: k <= j < |enderecos| ==> out[j] == enderecos[j])
  }

  /** What the loop from iteration `i` looks up and raises, stated against the first failing position. */
  ghost predicate EnrichedEffects(enderecos: seq<Address>, i: nat, lookup: string -> Lookup, r: Enrichment)
    requires i <= |enderecos|
  {
    var k := FirstFailure(enderecos, i, lookup);
    && (r.rejection.None? <==> k == |enderecos|)
    && (k < |enderecos| ==> r.rejection == Some(RejectionFor(lookup(enderecos[k].cep).error)))
    && r.queried == Ceps(enderecos[i..if k < |enderecos| then k + 1 else k])
  }

  /**
   * From iteration `i` on, the addresses before the first failure are
   * enriched and the rest are left as they were.
   */
  lemma {:induction false} EnrichFromContents(enderecos: seq<Address>, i: nat, lookup: string -> Lookup)
    requires i <= |enderecos|
    ensures EnrichedContents(enderecos, i, lookup, EnrichFrom(enderecos, i, lookup).enderecos.value)
    decreases |enderecos| - i
  {
    var out := EnrichFrom(enderecos, i, lookup).enderecos.value;
    var k := FirstFailure(enderecos, i, lookup);
    if i < |enderecos| && lookup(enderecos[i].cep).Found? {
      var next := enderecos[i := Merge(enderecos[i], lookup(enderecos[i].cep).info)];
      FirstFailureReadsOnlyCeps(enderecos, next, i + 1, lookup);
      EnrichFromContents(next, i + 1, lookup);
      assert out == EnrichFrom(next, i + 1, lookup).enderecos.value;
      forall j | i <= j < k
        ensures out[j] == Enriched(enderecos[j], lookup)
      {
        if j > i {
          assert next[j] == enderecos[j];
        }
      }
      forall j | k <= j < |enderecos|
        ensures out[j] == enderecos[j]
      {
        assert next[j] == enderecos[j];
      }
    }
  }

  /**
   * From iteration `i` on, the postal codes looked up run up to and
   * including the first failing one, and the rejection is the one for it.
   */
  lemma {:induction false} EnrichFromEffects(enderecos: seq<Address>, i: nat, lookup: string -> Lookup)
    requires i <= |enderecos|
    ensures EnrichedEffects(enderecos, i, lookup, EnrichFrom(enderecos, i, lookup))
    decreases |enderecos| - i
  {
    var r := EnrichFrom(enderecos, i, lookup);
    var k := FirstFailure(enderecos, i, lookup);
    if i == |enderecos| {
      assert Ceps(enderecos[i..i]) == [];
    } else if lookup(enderecos[i].cep).Failed? {
      assert Ceps(enderecos[i..i + 1]) == [enderecos[i].cep];
    } else {
      var cep := enderecos[i].cep;
      var next := enderecos[i := Merge(enderecos[i], lookup(cep).info)];
      FirstFailureReadsOnlyCeps(enderecos, next, i + 1, lookup);
      EnrichFromEffects(next, i + 1, lookup);
      var rest := EnrichFrom(next, i + 1, lookup);
      assert r.queried == [cep] + rest.queried && r.rejection == rest.rejection;
      var end := if k < |enderecos| then k + 1 else k;
      assert Ceps(enderecos[i..end]) == [cep] + Ceps(next[i + 1..end]) by {
        assert enderecos[i..end][0] == enderecos[i];
        assert enderecos[i..end][1..] == next[i + 1..end];
      }
    }
  }

  /**
   * `consultarApiCep` on the request's `enderecos` field. Without that field
   * (absent or null) nothing is looked up and the request is left as it is.
   */
  function ConsultarApiCep(enderecos: Option<seq<Address>>, lookup: string -> Lookup): (r: Enrichment)
    ensures enderecos.None? ==> r == Enrichment(None, [], None)
    ensures enderecos.Some? ==>
              var k := FirstFailure(enderecos.value, 0, lookup);
              && r.enderecos.Some? && |r.enderecos.value| == |enderecos.value|
              && (forall j :: 0 <= j < k ==> r.enderecos.value[j] == Enriched(enderecos.value[j], lookup))
              && (forall j :: k <= j < |enderecos.value| ==> r.enderecos.value[j] == enderecos.value[j])
              && (r.rejection.None? <==> k == |enderecos.value|)
              && (k < |enderecos.value| ==> r.rejection == Some(RejectionFor(lookup(enderecos.value[k].cep).error)))
              && r.queried == Ceps(enderecos.value[..if k < |enderecos.value| then k + 1 else k])
  {
    match enderecos
    case None => Enrichment(None, [], None)
    case Some(list) =>
      EnrichFromContents(list, 0, lookup);
      EnrichFromEffects(list, 0, lookup);
      assert list[0..] == list;
      EnrichFrom(list, 0, lookup)
  }

  /**
   * Every address keeps its postal code and its other fields; an address
   * that was enriched carries exactly what its lookup returned.
   */
  lemma KeepsOtherFields(enderecos: seq<Address>, lookup: string -> Lookup)
    ensures var out := ConsultarApiCep(Some(enderecos), lookup).enderecos.value;
            && |out| == |enderecos|
            && (forall j :: 0 <= j < |out| ==> out[j].cep == enderecos[j].cep && out[j].extra == enderecos[j].extra)
            && (forall j :: 0 <= j < |out| && out[j] != enderecos[j] ==>
                  lookup(enderecos[j].cep).Found?
                  && out[j].uf == lookup(enderecos[j].cep).info.state
                  && out[j].cidade == lookup(enderecos[j].cep).info.city
                  && out[j].rua == lookup(enderecos[j].cep).info.street)
  {
  }

  /**
   * The lookups performed are the postal codes of a prefix of the list, and
   * that prefix ends at the failing address: nothing after it is looked up.
   */
  lemma NoLookupAfterFailure(enderecos: seq<Address>, lookup: string -> Lookup, k: nat)
    requires k < |enderecos| && lookup(enderecos[k].cep).Failed?
    ensures var r := ConsultarApiCep(Some(enderecos), lookup);
            && r.rejection.Some?
            && |r.queried| <= k + 1
            && r.queried == Ceps(enderecos[..|r.queried|])
  {
  }

  /**
   * Two addresses where the second lookup fails: the first is enriched, the
   * second is left as it was, and the request is rejected with the upstream
   * status (or 500 when there is none) and message.
   */
  lemma SecondLookupFails(a: Address, b: Address, info: CepInfo, e: LookupError, lookup: string -> Lookup)
    requires lookup(a.cep) == Found(info) && lookup(b.cep) == Failed(e)
    ensures var r := ConsultarApiCep(Some([a, b]), lookup);
            && r.enderecos == Some([Merge(a, info), b])
            && r.queried == [a.cep, b.cep]
            && r.rejection.Some?
            && r.rejection.value.status == (if e.statusCode.None? || e.statusCode.value == 0 then 500 else e.statusCode.value)
            && r.rejection.value.message == (if e.message == "" then Localized(ErrorApiCep) else Verbatim(e.message))
  {
    assert FirstFailure([a, b], 0, lookup) == 1;
    assert Ceps([a, b][..2]) == [a.cep, b.cep];
    var out := ConsultarApiCep(Some([a, b]), lookup).enderecos.value;
    assert out[0] == Merge(a, info) && out[1] == b;
    assert out == [Merge(a, info), b];
  }
}
