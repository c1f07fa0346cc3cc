/** The records the service works on: a person (`Pessoas`) and the addresses composed into it. */
module Entities {
  import opened Wrappers

  /**
   * An address entry of a person. `cep` is supplied by the client; `uf`,
   * `cidade` and `rua` are filled in from the postal-code service; `extra`
   * stands for every other field the entry carries, which enrichment must
   * leave untouched. An empty `cep` is an address without a postal code.
   */
  datatype Address = Address(
    cep: string,
    uf: Option<string>,
    cidade: Option<string>,
    rua: Option<string>,
    extra: map<string, string>)

  /** A stored person, keyed by `cpf`. An absent `idade` is a database NULL. */
  datatype Person = Person(cpf: string, idade: Option<int>, enderecos: seq<Address>)
}
