# CadastroPessoas in Dafny

A model of the request-handling core of the `CadastroPessoas` service, an
SAP CAP application that keeps a registry of people (`Pessoas`) keyed by
their CPF (the Brazilian individual tax ID). The model covers:

- `validarCPF`. This is the mod-11, two-check-digit test of a CPF. It is
  modelled step by step with JavaScript's semantics: `parseInt` of a
  non-digit gives NaN, NaN poisons the running sum, and a comparison with NaN
  fails. It is proved equal to an independent textbook statement of the
  scheme (module `Cpf`, with `JsNumber` for the integer-or-NaN arithmetic).
- `validarDados`. This checks the age and the CPF of a create or update.
  Both tests are guarded by JavaScript truthiness, so an age of `0` or an
  empty CPF skips its test. Both errors can be raised together
  (module `FieldValidation`).
- `consultarApiCep`. This is the in-order enrichment of a request's
  addresses from the postal-code service. The first failed lookup rejects
  the request with the upstream status (500 by default) and message, and no
  later address is looked up (module `CepEnrichment`).
- `validarEndereco`, `checarCPFExiste` and `deletarCadastros`. These are the
  address-presence check, the existence check and the bulk delete. The bulk
  delete is a fold over the CPF list against a store, with one outcome per
  item: `NotFound`, `HasAddress`, `Deleted` or `Failed(message)`
  (module `Registry`).
- `selecionarPessoasPorIdade`. This is the age query: the people aged at
  least `x`, ascending by age (module `AgeQuery`).

Outside influences become parameters:

- The postal-code HTTP service is a function `lookup` from a postal code to
  `Found(state, city, street)` or `Failed(statusCode, message)`.
- The database is a `map` from CPF to `Person`. Whether a query or a delete
  throws is given per call: a fault flag for `validarEndereco` and
  `checarCPFExiste`, and a per-position `ItemFaults` for each batch item.
- The age query reads the table as a sequence of rows.
- A localized message is identified by its i18n key (`Messages.MessageKey`).
  The locale and the message text are outside the model.

The model follows what the code does, including where it differs from its
own comments or from what a reader would expect:

- `validarDados` guards both tests with JavaScript truthiness
  (srv/service.js:128 and 132). An age of `0` and an empty CPF are falsy and
  skip validation, although the doc comment at srv/service.js:121 speaks of
  rejecting any age below 16.
- The `before("DELETE")` handler (srv/service.js:25-29) only registers the
  audit-log hook. A single `DELETE` of a person who has an address is not
  blocked; the address check exists only inside `deletarCadastros`.
- As written, the bulk delete never deletes anything, because its delete
  statement names an unbound identifier; see Findings. The model of a batch
  uses the corrected delete, and states the as-written behaviour separately.

## Model

| member | source | states |
|---|---|---|
| `JsNumber.Rem` | srv/service.js:158 | JavaScript `%`: NaN stays NaN; the remainder's magnitude is below the divisor's; for a non-negative dividend it is the ordinary remainder |
| `Cpf.RepeatedDigit` | srv/service.js:146-149 | the repeated-digit pattern matches exactly the strings of eleven ASCII digits that are all equal |
| `Cpf.Soma` | srv/service.js:151-157 | the running sum is a number exactly when every character read so far is an ASCII digit; a single non-digit makes it NaN |
| `Cpf.Resto` | srv/service.js:158-159 | the clamped remainder is NaN exactly when the sum is; otherwise it lies in -10..9, the clamp having removed 10 |
| `Cpf.CheckDigitPasses` | srv/service.js:160-173 | a check-digit test can pass only when every character up to and including the check digit is an ASCII digit |
| `Cpf.ParseIntChar` | srv/service.js:156 | `parseInt` of one character is a number exactly when the character is an ASCII digit, and then it lies in 0..9 |
| `Cpf.ValidarCpf` | srv/service.js:143-176 | a string whose length is not 11, or that is one digit repeated eleven times, is rejected; an accepted string consists of ASCII digits only |
| `Cpf.SomaMatchesWeightedSum` | srv/service.js:151-157 | the as-written running sum is NaN exactly when a non-digit was read; otherwise it is the weighted digit sum Σ dᵢ·(top − i) |
| `Cpf.ClampMatchesStandard` | srv/service.js:158-159 | for a non-negative sum, `(sum*10) % 11` with 10 clamped to 0 equals the textbook check digit (remainder r of sum by 11; 0 if r < 2, else 11 − r) |
| `Cpf.ValidarCpfIsStandard` | srv/service.js:143-176 | `validarCPF` accepts exactly the valid CPFs: eleven ASCII digits, not all equal, whose 10th and 11th digits are the textbook check digits of digits 1–9 (weights 10..2) and 1–10 (weights 11..2) |
| `Cpf.CheckDigitInRange` | srv/service.js:158-170 | the `resto === 11` case can never occur; after the clamp both computed check digits are NaN or lie in 0..9 |
| `Cpf.RepeatedDigitsPassChecksums` | srv/service.js:146-149 | eleven copies of any one digit pass both check-digit tests, so the repeated-digit test is the only thing that rejects them |
| `Cpf.ReferenceCpfAccepted` | srv/service.js:143-176 | the CPF `11144477735` is accepted |
| `Cpf.SecondCheckDigitFlipRejected` | srv/service.js:164-173 | `11144477734` (last check digit changed) is rejected |
| `Cpf.FirstCheckDigitFlipRejected` | srv/service.js:154-162 | `11144477725` (first check digit changed) is rejected |
| `Cpf.SampleCpfRejected` | srv/service.js:143-176 | `12345678900` is rejected |
| `Messages.OrLocalized` | srv/service.js:109 | JavaScript `text or localized(key)` (logical or): an empty upstream message falls back to the localized text for the key, and any other message is passed through verbatim |
| `FieldValidation.ValidarDados` | srv/service.js:123-135 | WRONG_YEAR is raised iff the age is present, non-zero and below 16. WRONG_CPF is raised iff the CPF is present, non-empty and not a valid CPF (textbook definition). Every error has status 400. When both are raised, the age error comes first |
| `FieldValidation.CallsValidarCpf` | srv/service.js:132 | the validator call in `validarDados` accepts exactly the valid CPFs (textbook definition) |
| `FieldValidation.AgeBoundary` | srv/service.js:128-130 | age 15 is rejected and 16 accepted; age 0 skips the test; a negative age is rejected |
| `FieldValidation.CpfExamples` | srv/service.js:132-134 | `12345678900` is rejected, `11144477735` is accepted, and an empty CPF skips the test |
| `CepEnrichment.Merge` | srv/service.js:98-103 | the merged address keeps its postal code and every other field, and takes `uf`/`cidade`/`rua` from the response's state/city/street |
| `CepEnrichment.RejectionFor` | srv/service.js:107-110 | the rejection status is the upstream status code, or 500 when that is absent or 0; the message is the upstream one, or the localized ERROR_API_CEP when it is empty |
| `CepEnrichment.EnrichFrom` | srv/service.js:82-112 | the loop leaves the list's length and the already-visited positions unchanged |
| `CepEnrichment.EnrichFromContents` | srv/service.js:82-112 | from iteration i on, with k the first failing position: the list keeps its length, addresses in [i, k) are enriched, and those before i or from k on are untouched |
| `CepEnrichment.EnrichFromEffects` | srv/service.js:82-112 | from iteration i on, with k the first failing position: there is no rejection iff no lookup fails; otherwise the rejection is the one for k; the codes looked up are exactly those of positions i..k |
| `CepEnrichment.ConsultarApiCep` | srv/service.js:74-113 | without an address list nothing is looked up and the request is unchanged. Otherwise, with k the first failing position: addresses before k are enriched and those from k on are untouched; the request is rejected iff some lookup fails, with that lookup's status and message; lookups stop at k |
| `CepEnrichment.KeepsOtherFields` | srv/service.js:98-103 | after enrichment every address keeps its postal code and other fields; a changed address carries exactly what its lookup returned |
| `CepEnrichment.NoLookupAfterFailure` | srv/service.js:82-111 | when the lookup at position k fails, the request is rejected and only a prefix of the postal codes, ending no later than k, is looked up |
| `CepEnrichment.SecondLookupFails` | srv/service.js:82-111 | two addresses where the second lookup fails: the first is enriched, the second is unchanged, both codes are looked up, and the request is rejected with the upstream status (default 500) and message (default ERROR_API_CEP) |
| `Registry.SelectAddressRow` | srv/service.js:193-198 | the joined query yields a row exactly when the CPF is stored. The row's `cep` is null exactly when the person has no address, and is otherwise the first address's postal code |
| `Registry.ValidarEndereco` | srv/service.js:191-210 | true iff the query does not fail and a person with this CPF is stored whose joined address has a non-empty postal code |
| `Registry.SelectPerson` | srv/service.js:319 | the lookup by key yields the stored person exactly when the CPF is stored |
| `Registry.ChecarCpfExiste` | srv/service.js:315-326 | true iff the query does not fail and a person with this CPF is stored |
| `Registry.ProcessCpf` | srv/service.js:256-301 | one item: NotFound iff the CPF is absent or the existence query fails. HasAddress iff it is stored, neither query fails and its joined address has a postal code. A failing address query lets a person with a postal code reach the delete. Otherwise the delete is attempted: Deleted iff it succeeds, Failed iff it throws, with the thrown message or the localized DELETE_FAILED. Only Deleted removes the CPF from the store |
| `Registry.Entry.ResponseMessage` | srv/service.js:261-299 | the `message` of an item is ERROR_CPF_NOT_FOUND, ERROR_HAS_ADDRESS or SUCCESS_DELETE for the three fixed outcomes, and the failed delete's own message otherwise |
| `Registry.MessageTellsOutcome` | srv/service.js:256-301 | with messages identified by their i18n key, a failed delete's message is never one of the three fixed message keys, so each fixed key is returned exactly for its own outcome |
| `Registry.DeletarCadastros` | srv/service.js:254-304 | one entry per input CPF, in order, each carrying its CPF. The final store is the initial store minus exactly the CPFs reported Deleted. A Deleted CPF was stored initially |
| `Registry.BulkPrefix` | srv/service.js:254-304 | processing a prefix of the batch gives the prefix of the result |
| `Registry.BulkItemOutcome` | srv/service.js:256-301 | item i is judged by one loop iteration against the store as the earlier items left it |
| `Registry.BulkDistinct` | srv/service.js:254-304 | in a batch without repeated CPFs, each item's outcome is what a single iteration gives against the initial store; no item affects another |
| `Registry.DeletedThenNotFound` | srv/service.js:259-266 | a CPF deleted earlier in a batch is reported NotFound when it occurs again |
| `Registry.ThreeCpfBatch` | srv/service.js:254-304 | batch ["A","B","C"] (A absent, B with a postal code, C without, deletes succeed) gives NotFound, HasAddress, Deleted with messages CPF_NOT_FOUND, HAS_ADDRESS, SUCCESS_DELETE, and only B remains |
| `Registry.AsWrittenNeverDeletes` | srv/service.js:283-300 | with the delete statement as written (an unbound `Pessoas`), no batch deletes anything: the store is unchanged and every item that reaches the delete reports "Pessoas is not defined" |
| `AgeQuery.Filter` | srv/service.js:344 | the `where` clause returns no more rows than the table has, each of age at least x |
| `AgeQuery.FilterCounts` | srv/service.js:344 | the `where` clause keeps every row of age at least x as often as the table holds it, and nothing else |
| `AgeQuery.Insert` | srv/service.js:345 | one insertion step of the `order by` adds exactly the inserted person to the multiset of rows |
| `AgeQuery.InsertSorted` | srv/service.js:345 | inserting into an age-sorted sequence keeps it sorted, with the inserted person or the old head in front |
| `AgeQuery.SortByAge` | srv/service.js:345 | the result is sorted ascending by age and is a permutation of the input |
| `AgeQuery.SelecionarPessoasPorIdade` | srv/service.js:338-346 | the result is sorted ascending by age, contains only people aged at least x, and contains each such person exactly as often as the table does |
| `AgeQuery.AgesFrom16` | srv/service.js:338-346 | people aged 10, 16, 16, 40 queried from 16 give exactly the three aged 16 or more, with ages 16, 16, 40 in that order; the order of the two 16-year-olds is left open |

## Left out

- The handler wiring in `init` (srv/service.js:7-62) is not modelled. This covers handler registration and the `prepend` ordering, the `hasAddress` action's choice between `req.data.cpf` and `req.params[0].cpf`, and the remapping of `ENTITY_ALREADY_EXISTS`. It is framework plumbing with no logic of its own.
- `criarLogDelecoes` (srv/service.js:226-236) is not modelled. It is a single transactional insert of `{cpf}` into the deletion log, run from a framework hook after a `DELETE` request succeeds. The bulk delete does not go through that hook.
- server.js is not modelled. It only logs on bootstrap and shutdown.
- HTTP calls, CQL queries and deletes are not modelled. They become the `lookup` function, the store map and fault flags. A fault flag is fixed per call or per batch position and does not depend on time.
- The i18n lookup and the locale are not modelled; messages are identified by key. Logging and async scheduling are left out too, since no behaviour depends on them.
- `Cpf.ValidarCpf` takes a string. The `typeof cpf !== "string"` branch (srv/service.js:144) is not modelled, because the CPF field is a string in the service's data model. JavaScript's `length` counts UTF-16 units while a Dafny string counts characters. This never changes the verdict, since any character outside `0`–`9` makes the CPF invalid either way.
- `Registry.DeletarCadastros` takes the CPF list as a sequence. When `cpfs` is absent or null, `for (const cpf of cpfs)` (srv/service.js:256) throws a TypeError before any item is processed; that request failure is not modelled.
- `CepEnrichment.ConsultarApiCep` takes every list element to be an address record. A null or undefined element makes `enderecos[i].CEP` (srv/service.js:83) throw a TypeError outside the `try`, so the request fails without the `req.reject(500, …)` of the catch block; that path is not modelled.
- `FieldValidation.ValidarDados` treats the age as an integer or absent. A non-integer or NaN age is not modelled.
- `CepEnrichment.ConsultarApiCep` takes each address's postal code as a string. An address without a `CEP` field, which the code would request as `/cep/v1/undefined`, is not modelled. The postal-code service's answer is a function of the code alone.
- `Registry.ValidarEndereco` takes the row `SELECT.one` returns from the address join to be the person's first address. The database does not fix which joined row comes first. A NULL postal code in the database is modelled as the empty string.
- `AgeQuery.SelecionarPessoasPorIdade` fixes one order among people of equal age. The database leaves that order open. A missing `idade` parameter is not modelled.

## Findings

| source | as written | input that shows it | evidently intended | confidence | as-written member | corrected member |
|---|---|---|---|---|---|---|
| srv/service.js:285 | `DELETE.from(Pessoas)` names `Pessoas`, which is a constant local to `init` (srv/service.js:8) and unbound in `deletarCadastros`. Evaluating it throws a ReferenceError ("Pessoas is not defined"), which the `catch` at line 292 turns into that item's message | a batch with one CPF that is stored and has no address, e.g. `["C"]` with `C` stored without addresses | delete the person from the service's `Pessoas` entity (as lines 271 and 316 look it up) and report SUCCESS_DELETE | not executed; high (nothing in the file or in the framework's globals binds `Pessoas` at that point, and reading an unbound identifier throws in any mode) | `Registry.AsWrittenNeverDeletes` | `Registry.ProcessCpf` |
