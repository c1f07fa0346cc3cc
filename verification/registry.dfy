/**
 * The person registry as the service reads and deletes it: the address
 * presence check (`validarEndereco`), the existence check
 * (`checarCPFExiste`) and the bulk deletion (`deletarCadastros`).
 *
 * The database is a map from CPF to person. A query or delete that throws is
 * an explicit fault flag given with the call, since which statements fail is
 * up to the database, not the service.
 */
module Registry {
  import opened Wrappers
  import opened Messages
  import opened Entities

  type Store = map<string, Person>

  // ---------------------------------------------------------------------
  // Reads
  // ---------------------------------------------------------------------

  /**
   * The row of `SELECT.one.from(Pessoas).columns("cpf", "enderecos.CEP as cep")
   * .where({cpf})`. The path `enderecos.CEP` left-joins the person's
   * addresses and `SELECT.one` keeps the first joined row, taken here as the
   * first address; a person without addresses still yields a row, with a
   * null `cep`.
   */
  datatype AddressRow = AddressRow(cpf: string, cep: Option<string>)

  function SelectAddressRow(store: Store, cpf: string): (row: Option<AddressRow>)
    ensures row.Some? <==> cpf in store
    ensures row.Some? ==> row.value.cpf == cpf
    ensures row.Some? ==> (row.value.cep.None? <==> store[cpf].enderecos == [])
    ensures row.Some? && row.value.cep.Some? ==> row.value.cep.value == store[cpf].enderecos[0].cep
  {
    if cpf !in store then None
    else
      var p := store[cpf];
      Some(AddressRow(cpf, if |p.enderecos| == 0 then None else Some(p.enderecos[0].cep)))
  }

  /** A person "has an address": the address the join yields carries a non-empty postal code. */
  predicate HasStoredCep(p: Person)
  {
    |p.enderecos| > 0 && p.enderecos[0].cep != ""
  }

  /**
   * `validarEndereco`: true only for a stored person whose address has a
   * postal code; a failing query counts as "no address".
   */
  function ValidarEndereco(store: Store, cpf: string, queryFails: bool): (r: bool)
    ensures r <==> !queryFails && cpf in store && HasStoredCep(store[cpf])
  {
    if queryFails then false
    else
      var row := SelectAddressRow(store, cpf);
      row.Some? && row.value.cep.Some? && row.value.cep.value != ""
  }

  /** `SELECT.one.from(Pessoas).where({cpf})`. */
  function SelectPerson(store: Store, cpf: string): (p: Option<Person>)
    ensures p.Some? <==> cpf in store
    ensures p.Some? ==> p.value == store[cpf]
  {
    if cpf in store then Some(store[cpf]) else None
  }

  /** `checarCPFExiste`: whether a person with this CPF is stored; a failing query counts as "not found". */
  function ChecarCpfExiste(store: Store, cpf: string, queryFails: bool): (r: bool)
    ensures r <==> !queryFails && cpf in store
  {
    if queryFails then false else SelectPerson(store, cpf).Some?
  }

  // ---------------------------------------------------------------------
  // Bulk deletion
  // ---------------------------------------------------------------------

  /** What `DELETE.from(…).where({cpf})` does: completes, or throws with a message (`""` when it has none). */
  datatype DeleteAttempt = DeleteOk | DeleteThrew(message: string)

  /** How the database behaves for one item of a batch. */
  datatype ItemFaults = ItemFaults(existsQueryFails: bool, addressQueryFails: bool, delete: DeleteAttempt)

  /** The outcome of one CPF of a batch. */
  datatype Outcome = NotFound | HasAddress | Deleted | Failed(message: Message)

  /** One `{cpf, message}` object of the result. */
  datatype Entry = Entry(cpf: string, outcome: Outcome)
  {
    /**
     * The `message` field: the localized text for the three fixed outcomes,
     * and the message carried by a failed delete.
     */
    function ResponseMessage(): (m: Message)
      ensures outcome == NotFound ==> m == Localized(ErrorCpfNotFound)
      ensures outcome == HasAddress ==> m == Localized(ErrorHasAddress)
      ensures outcome == Deleted ==> m == Localized(SuccessDelete)
      ensures outcome.Failed? ==> m == outcome.message
    {
      match outcome
      case NotFound => Localized(ErrorCpfNotFound)
      case HasAddress => Localized(ErrorHasAddress)
      case Deleted => Localized(SuccessDelete)
      case Failed(m) => m
    }
  }

  datatype Step = Step(outcome: Outcome, store: Store)

  datatype BulkResult = BulkResult(entries: seq<Entry>, store: Store)

  /** The item gets past both checks and the delete is attempted. */
  predicate ReachesDelete(store: Store, cpf: string, f: ItemFaults)
  {
    && cpf in store
    && !f.existsQueryFails
    && !(!f.addressQueryFails && HasStoredCep(store[cpf]))
  }

  /** One iteration of the loop of `deletarCadastros`. */
  function ProcessCpf(store: Store, cpf: string, f: ItemFaults): (s: Step)
    ensures s.outcome == NotFound <==> cpf !in store || f.existsQueryFails
    ensures s.outcome == HasAddress
            <==> cpf in store && !f.existsQueryFails && !f.addressQueryFails && HasStoredCep(store[cpf])
    ensures s.outcome == Deleted <==> ReachesDelete(store, cpf, f) && f.delete.DeleteOk?
    ensures s.outcome.Failed? <==> ReachesDelete(store, cpf, f) && f.delete.DeleteThrew?
    ensures s.outcome.Failed? ==> s.outcome.message == OrLocalized(f.delete.message, ErrorDeleteFailed)
    ensures s.store == if s.outcome == Deleted then store - {cpf} else store
  {
    if !ChecarCpfExiste(store, cpf, f.existsQueryFails) then Step(NotFound, store)
    else if ValidarEndereco(store, cpf, f.addressQueryFails) then Step(HasAddress, store)
    else
      match f.delete
      case DeleteOk => Step(Deleted, store - {cpf})
      case DeleteThrew(msg) => Step(Failed(OrLocalized(msg, ErrorDeleteFailed)), store)
  }

  /**
   * The message a caller receives tells the outcome apart: a failed delete
   * carries either its own text or DELETE_FAILED, never one of the three
   * fixed messages.
   */
  lemma MessageTellsOutcome(store: Store, cpf: string, f: ItemFaults)
    ensures var e := Entry(cpf, ProcessCpf(store, cpf, f).outcome);
            && (e.ResponseMessage() == Localized(ErrorCpfNotFound) <==> e.outcome == NotFound)
            && (e.ResponseMessage() == Localized(ErrorHasAddress) <==> e.outcome == HasAddress)
            && (e.ResponseMessage() == Localized(SuccessDelete) <==> e.outcome == Deleted)
  {
  }

  /** The CPFs a list of entries reports as deleted. */
  function DeletedCpfs(entries: seq<Entry>): set<string>
  {
    set j | 0 <= j < |entries| && entries[j].outcome == Deleted :: entries[j].cpf
  }

  lemma DeletedCpfsSnoc(entries: seq<Entry>, e: Entry)
    ensures DeletedCpfs(entries + [e]) == DeletedCpfs(entries) + (if e.outcome == Deleted then {e.cpf} else {})
  {
    var all := entries + [e];
    forall c | c in DeletedCpfs(all)
      ensures c in DeletedCpfs(entries) + (if e.outcome == Deleted then {e.cpf} else {})
    {
      var j :| 0 <= j < |all| && all[j].outcome == Deleted && all[j].cpf == c;
      if j < |entries| {
        assert entries[j] == all[j];
      }
    }
    forall c | c in DeletedCpfs(entries)
      ensures c in DeletedCpfs(all)
    {
      var j :| 0 <= j < |entries| && entries[j].outcome == Deleted && entries[j].cpf == c;
      assert all[j] == entries[j];
    }
    if e.outcome == Deleted {
      assert all[|entries|] == e;
    }
  }

  /**
   * `deletarCadastros`: the CPFs are processed one after another, each
   * against the store as the earlier ones left it. `faults(i)` is how the
   * database behaves for the item at position `i`.
   */
  function DeletarCadastros(store: Store, cpfs: seq<string>, faults: nat -> ItemFaults): (r: BulkResult)
    ensures |r.entries| == |cpfs|
    ensures forall i :: 0 <= i < |cpfs| ==> r.entries[i].cpf == cpfs[i]
    ensures r.store == store - DeletedCpfs(r.entries)
    ensures forall i :: 0 <= i < |cpfs| && r.entries[i].outcome == Deleted ==> cpfs[i] in store
    decreases |cpfs|
  {
    if |cpfs| == 0 then BulkResult([], store)
    else
      var n := |cpfs| - 1;
      var prefix := DeletarCadastros(store, cpfs[..n], faults);
      var step := ProcessCpf(prefix.store, cpfs[n], faults(n));
      var entries := prefix.entries + [Entry(cpfs[n], step.outcome)];
      DeletedCpfsSnoc(prefix.entries, Entry(cpfs[n], step.outcome));
      BulkResult(entries, step.store)
  }

  /** Processing a prefix of the batch gives the prefix of the entries. */
  lemma {:induction false} BulkPrefix(store: Store, cpfs: seq<string>, faults: nat -> ItemFaults, n: nat)
    requires n <= |cpfs|
    ensures DeletarCadastros(store, cpfs[..n], faults).entries == DeletarCadastros(store, cpfs, faults).entries[..n]
    decreases |cpfs|
  {
    if n < |cpfs| {
      var m := |cpfs| - 1;
      assert cpfs[..m][..n] == cpfs[..n];
      BulkPrefix(store, cpfs[..m], faults, n);
    } else {
      assert cpfs[..n] == cpfs;
    }
  }

  /** The store as the items before position `i` leave it. */
  function StoreBefore(store: Store, cpfs: seq<string>, faults: nat -> ItemFaults, i: nat): Store
    requires i <= |cpfs|
  {
    DeletarCadastros(store, cpfs[..i], faults).store
  }

  /** Item `i` is judged by one loop iteration against the store the earlier items left. */
  lemma BulkItemOutcome(store: Store, cpfs: seq<string>, faults: nat -> ItemFaults, i: nat)
    requires i < |cpfs|
    ensures DeletarCadastros(store, cpfs, faults).entries[i].outcome
            == ProcessCpf(StoreBefore(store, cpfs, faults, i), cpfs[i], faults(i)).outcome
  {
    var c := cpfs[..i + 1];
    BulkPrefix(store, cpfs, faults, i + 1);
    assert c[..i] == cpfs[..i] && c[i] == cpfs[i];
    var before := DeletarCadastros(store, c[..i], faults);
    assert DeletarCadastros(store, c, faults).entries[i]
        == Entry(c[i], ProcessCpf(before.store, c[i], faults(i)).outcome);
  }

  /**
   * In a batch without repeated CPFs each item is judged against the store
   * as it was before the batch: the items do not influence one another.
   */
  lemma BulkDistinct(store: Store, cpfs: seq<string>, faults: nat -> ItemFaults)
    requires forall i, j :: 0 <= i < j < |cpfs| ==> cpfs[i] != cpfs[j]
    ensures forall i :: 0 <= i < |cpfs| ==>
              DeletarCadastros(store, cpfs, faults).entries[i].outcome == ProcessCpf(store, cpfs[i], faults(i)).outcome
  {
    forall i | 0 <= i < |cpfs|
      ensures DeletarCadastros(store, cpfs, faults).entries[i].outcome == ProcessCpf(store, cpfs[i], faults(i)).outcome
    {
      BulkItemOutcome(store, cpfs, faults, i);
      var prefix := DeletarCadastros(store, cpfs[..i], faults);
      assert cpfs[i] !in DeletedCpfs(prefix.entries) by {
        forall j | 0 <= j < i
          ensures prefix.entries[j].cpf != cpfs[i]
        {
          assert prefix.entries[j].cpf == cpfs[..i][j] == cpfs[j];
        }
      }
      var before := prefix.store;
      assert cpfs[i] in before <==> cpfs[i] in store;
      assert cpfs[i] in before ==> before[cpfs[i]] == store[cpfs[i]];
    }
  }

  /** Once a CPF is deleted, a later occurrence of it in the same batch is reported as not found. */
  lemma DeletedThenNotFound(store: Store, cpfs: seq<string>, faults: nat -> ItemFaults, i: nat, j: nat)
    requires i < j < |cpfs| && cpfs[i] == cpfs[j]
    requires DeletarCadastros(store, cpfs, faults).entries[i].outcome == Deleted
    ensures DeletarCadastros(store, cpfs, faults).entries[j].outcome == NotFound
  {
    BulkItemOutcome(store, cpfs, faults, j);
    BulkPrefix(store, cpfs, faults, j);
    var prefix := DeletarCadastros(store, cpfs[..j], faults);
    assert prefix.entries[i].outcome == Deleted;
    assert cpfs[j] in DeletedCpfs(prefix.entries);
  }

  /**
   * The batch `["A", "B", "C"]`: A is not stored, B has an address with a
   * postal code, C has none and its delete succeeds.
   */
  lemma ThreeCpfBatch()
    ensures var store := map[
                "B" := Person("B", Some(30), [Address("01001000", None, None, None, map[])]),
                "C" := Person("C", Some(40), [])];
            var r := DeletarCadastros(store, ["A", "B", "C"], _ => ItemFaults(false, false, DeleteOk));
            && r.entries == [Entry("A", NotFound), Entry("B", HasAddress), Entry("C", Deleted)]
            && [r.entries[0].ResponseMessage(), r.entries[1].ResponseMessage(), r.entries[2].ResponseMessage()]
               == [Localized(ErrorCpfNotFound), Localized(ErrorHasAddress), Localized(SuccessDelete)]
            && r.store.Keys == {"B"}
  {
    var store := map[
        "B" := Person("B", Some(30), [Address("01001000", None, None, None, map[])]),
        "C" := Person("C", Some(40), [])];
    var cpfs := ["A", "B", "C"];
    var faults: nat -> ItemFaults := _ => ItemFaults(false, false, DeleteOk);
    BulkDistinct(store, cpfs, faults);
    var r := DeletarCadastros(store, cpfs, faults);
    assert r.entries[0] == Entry("A", NotFound);
    assert r.entries[1] == Entry("B", HasAddress);
    assert r.entries[2] == Entry("C", Deleted);
    assert DeletedCpfs(r.entries) == {"C"};
  }

  // ---------------------------------------------------------------------
  // The delete statement as written
  // ---------------------------------------------------------------------

  /**
   * The delete statement names `Pessoas`, a constant bound only inside the
   * service's `init`; in `deletarCadastros` the name is unbound, so
   * evaluating it throws a ReferenceError with this message before any
   * delete is issued.
   */
  const UnboundPessoasMessage := "Pessoas is not defined"

  /** The database behaviour `deletarCadastros` sees as written: every delete throws. */
  function AsWritten(f: ItemFaults): ItemFaults
  {
    f.(delete := DeleteThrew(UnboundPessoasMessage))
  }

  /**
   * As written, no batch deletes anything: the store is unchanged and every
   * item that gets past both checks is reported with the ReferenceError's
   * message instead of SUCCESS_DELETE.
   */
  lemma AsWrittenNeverDeletes(store: Store, cpfs: seq<string>, faults: nat -> ItemFaults)
    ensures var r := DeletarCadastros(store, cpfs, (i: nat) => AsWritten(faults(i)));
            && r.store == store
            && forall i :: 0 <= i < |cpfs| ==>
                 r.entries[i].outcome != Deleted
                 && (r.entries[i].outcome.Failed? ==> r.entries[i].outcome == Failed(Verbatim(UnboundPessoasMessage)))
  {
    var written := (i: nat) => AsWritten(faults(i));
    var r := DeletarCadastros(store, cpfs, written);
    forall i | 0 <= i < |cpfs|
      ensures r.entries[i].outcome != Deleted
      ensures r.entries[i].outcome.Failed? ==> r.entries[i].outcome == Failed(Verbatim(UnboundPessoasMessage))
    {
      BulkItemOutcome(store, cpfs, written, i);
      assert written(i) == AsWritten(faults(i));
      assert AsWritten(faults(i)).delete == DeleteThrew(UnboundPessoasMessage);
    }
    assert DeletedCpfs(r.entries) == {};
  }
}
