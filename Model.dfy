/** The single entity of the service (a row of table `tarefa`), the table
    that stores it, and the responses the endpoints give. */
module Model {
  import opened Wrappers

  /** A task: its surrogate key, its nullable description and its
      completion flag. */
  datatype Tarefa = Tarefa(id: int, descricao: Option<string>, concluida: bool)

  /** The rows of table `tarefa`, keyed by primary key. */
  type Table = map<int, Tarefa>

  /** What a 200 response of a single-row endpoint carries: nothing
      (DELETE) or one row. The list query always answers 200 and is
      represented by its list alone. */
  datatype Body = Empty | One(tarefa: Tarefa)

  /** The results the endpoints return. */
  datatype Response =
    | Ok(body: Body)                             // 200 Results.Ok
    | Created(location: string, tarefa: Tarefa)  // 201 Results.Created
    | BadRequest(mensagem: string)               // 400 Results.BadRequest
    | NotFound                                   // 404 Results.NotFound

  /** Every row is stored under its own id, as the primary key guarantees. */
  predicate WellKeyed(table: Table) {
    forall k :: k in table ==> table[k].id == k
  }

  /** No element occurs twice. */
  predicate NoDup<T(==)>(s: seq<T>) {
    forall i, j :: 0 <= i < j < |s| ==> s[i] != s[j]
  }
}
