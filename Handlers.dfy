/** The four writing endpoints (POST, PUT, PATCH /concluir, DELETE) as
    functions from the store's state to the new state and the response.
    Each runs its checks in the handler's order, and each check that fails
    returns before anything is written. */
module Handlers {
  import opened Wrappers
  import opened Model
  import Strings
  import Routes
  import Queries

  const MsgCadastroSemDescricao: string := "Não é possível cadastrar tarefa sem descrição"
  const MsgIdInconsistente: string := "Id inconsistente."
  const MsgAlteracaoSemDescricao: string := "Não é possível deixar uma tarefa sem descrição"
  const MsgConcluidaAnteriormente: string := "Tarefa concluída anteriormente"

  /** The store: table `tarefa` and the next value of its auto-increment
      key. */
  datatype Db = Db(tarefas: Table, nextId: int)

  /** What a handler leaves behind: the new state and its response. */
  datatype Outcome = Outcome(db: Db, response: Response)

  /** What the auto-increment key relies on: rows sit under their primary
      key and every key lies below the counter, so the counter is a fresh
      key. */
  ghost predicate KeysBelowCounter(db: Db) {
    && WellKeyed(db.tarefas)
    && (forall k :: k in db.tarefas ==> k < db.nextId)
  }

  /** The store's invariant: rows sit under their primary key, every key
      lies below the auto-increment counter (which starts at 1), and every
      row written through the endpoints has a description. */
  ghost predicate Valid(db: Db) {
    && KeysBelowCounter(db)
    && 1 <= db.nextId
    && (forall k :: k in db.tarefas ==> 1 <= k)
    && (forall k :: k in db.tarefas ==> !Strings.IsNullOrEmpty(db.tarefas[k].descricao))
  }

  /** Every row other than `id` is the same in `after` as in `before`. */
  ghost predicate OthersUnchanged(before: Table, after: Table, id: int) {
    forall k :: k in before && k != id ==> k in after && after[k] == before[k]
  }

  /** POST /api/tarefas. A null or empty description is refused; otherwise
      a row with the body's description and flag is added under the key the
      store generates (the body's id is not used), and the response carries
      the URL of the new row. */
  function Post(db: Db, novaTarefa: Tarefa): (o: Outcome)
    requires KeysBelowCounter(db)
    ensures KeysBelowCounter(o.db)
    ensures Valid(db) ==> Valid(o.db)
    ensures o.response.BadRequest? <==> Strings.IsNullOrEmpty(novaTarefa.descricao)
    ensures o.response.BadRequest? ==> o == Outcome(db, BadRequest(MsgCadastroSemDescricao))
    ensures !o.response.BadRequest? ==> o.response.Created?
    ensures o.response.Created? ==>
      var t := o.response.tarefa;
      && t.id !in db.tarefas
      && o.db.tarefas.Keys == db.tarefas.Keys + {t.id}
      && o.db.tarefas[t.id] == t
      && t.descricao == novaTarefa.descricao
      && t.concluida == novaTarefa.concluida
      && OthersUnchanged(db.tarefas, o.db.tarefas, t.id)
      && |o.db.tarefas| == |db.tarefas| + 1
      && o.response.location == Routes.Location(t.id)
      && Routes.RouteId(o.response.location) == Some(t.id)
  {
    if Strings.IsNullOrEmpty(novaTarefa.descricao) then
      Outcome(db, BadRequest(MsgCadastroSemDescricao))
    else
      var tarefa := Tarefa(db.nextId, novaTarefa.descricao, novaTarefa.concluida);
      var tarefas := db.tarefas[tarefa.id := tarefa];
      assert tarefas.Keys == db.tarefas.Keys + {tarefa.id};
      Outcome(Db(tarefas, db.nextId + 1), Created(Routes.Location(tarefa.id), tarefa))
  }

  /** PUT /api/tarefas/{id}. Checked in this order: the body's id must equal
      the route's, the description must be neither null nor empty, and the
      row must exist. On success only that row's description and flag are
      replaced. */
  function Put(db: Db, id: int, tarefaAtualizada: Tarefa): (o: Outcome)
    ensures tarefaAtualizada.id != id ==> o == Outcome(db, BadRequest(MsgIdInconsistente))
    ensures tarefaAtualizada.id == id && Strings.IsNullOrEmpty(tarefaAtualizada.descricao) ==>
      o == Outcome(db, BadRequest(MsgAlteracaoSemDescricao))
    ensures tarefaAtualizada.id == id && !Strings.IsNullOrEmpty(tarefaAtualizada.descricao) && id !in db.tarefas ==>
      o == Outcome(db, NotFound)
    ensures o.response.Ok? <==>
      tarefaAtualizada.id == id && !Strings.IsNullOrEmpty(tarefaAtualizada.descricao) && id in db.tarefas
    ensures o.response.Ok? ==>
      && o.db.nextId == db.nextId
      && o.db.tarefas.Keys == db.tarefas.Keys
      && o.db.tarefas[id].id == db.tarefas[id].id
      && o.db.tarefas[id].descricao == tarefaAtualizada.descricao
      && o.db.tarefas[id].concluida == tarefaAtualizada.concluida
      && OthersUnchanged(db.tarefas, o.db.tarefas, id)
      && o.response == Ok(One(o.db.tarefas[id]))
    ensures Valid(db) ==> Valid(o.db)
  {
    if tarefaAtualizada.id != id then
      Outcome(db, BadRequest(MsgIdInconsistente))
    else if Strings.IsNullOrEmpty(tarefaAtualizada.descricao) then
      Outcome(db, BadRequest(MsgAlteracaoSemDescricao))
    else if id !in db.tarefas then
      Outcome(db, NotFound)
    else
      var tarefa := db.tarefas[id].(descricao := tarefaAtualizada.descricao, concluida := tarefaAtualizada.concluida);
      Outcome(db.(tarefas := db.tarefas[id := tarefa]), Ok(One(tarefa)))
  }

  /** PATCH /api/tarefas/{id}/concluir. A missing row gives NotFound, an
      already completed one BadRequest; otherwise only that row's flag is
      set. */
  function Concluir(db: Db, id: int): (o: Outcome)
    ensures o.response == NotFound <==> id !in db.tarefas
    ensures id in db.tarefas && db.tarefas[id].concluida ==>
      o == Outcome(db, BadRequest(MsgConcluidaAnteriormente))
    ensures o.response.Ok? <==> id in db.tarefas && !db.tarefas[id].concluida
    ensures !o.response.Ok? ==> o.db == db
    ensures o.response.Ok? ==>
      && o.db.nextId == db.nextId
      && o.db.tarefas.Keys == db.tarefas.Keys
      && o.db.tarefas[id].concluida
      && o.db.tarefas[id].id == db.tarefas[id].id
      && o.db.tarefas[id].descricao == db.tarefas[id].descricao
      && OthersUnchanged(db.tarefas, o.db.tarefas, id)
      && o.response == Ok(One(o.db.tarefas[id]))
    ensures Valid(db) ==> Valid(o.db)
  {
    if id !in db.tarefas then
      Outcome(db, NotFound)
    else if db.tarefas[id].concluida then
      Outcome(db, BadRequest(MsgConcluidaAnteriormente))
    else
      var tarefa := db.tarefas[id].(concluida := true);
      Outcome(db.(tarefas := db.tarefas[id := tarefa]), Ok(One(tarefa)))
  }

  /** DELETE /api/tarefas/{id}. A missing row gives NotFound; otherwise
      exactly that row is removed and the response is an empty 200. */
  function Delete(db: Db, id: int): (o: Outcome)
    ensures o.response == NotFound <==> id !in db.tarefas
    ensures o.response.Ok? <==> id in db.tarefas
    ensures !o.response.Ok? ==> o.db == db
    ensures o.response.Ok? ==>
      && o.response.body == Empty
      && o.db.nextId == db.nextId
      && o.db.tarefas.Keys == db.tarefas.Keys - {id}
      && OthersUnchanged(db.tarefas, o.db.tarefas, id)
      && |o.db.tarefas| == |db.tarefas| - 1
    ensures Valid(db) ==> Valid(o.db)
  {
    if id !in db.tarefas then
      Outcome(db, NotFound)
    else
      var tarefas := db.tarefas - {id};
      assert tarefas.Keys == db.tarefas.Keys - {id};
      Outcome(db.(tarefas := tarefas), Ok(Empty))
  }

  // Properties relating several requests.

  /** The URL a successful POST returns leads GET to the row it created. */
  lemma GetAfterPost(db: Db, novaTarefa: Tarefa)
    requires KeysBelowCounter(db)
    requires Post(db, novaTarefa).response.Created?
    ensures
      var o := Post(db, novaTarefa);
      && Routes.RouteId(o.response.location).Some?
      && Queries.GetById(o.db.tarefas, Routes.RouteId(o.response.location).value) == Ok(One(o.response.tarefa))
  {
  }

  /** A description made only of spaces passes the check: only null and
      the empty string are refused. */
  lemma BlankDescricaoAccepted(db: Db, id: int, s: string, concluida: bool)
    requires KeysBelowCounter(db)
    requires |s| > 0 && forall i :: 0 <= i < |s| ==> s[i] == ' '
    ensures Post(db, Tarefa(id, Some(s), concluida)).response.Created?
    ensures Put(db, id, Tarefa(id, Some(s), concluida)).response != BadRequest(MsgAlteracaoSemDescricao)
  {
  }

  /** What POST creates does not depend on the body's id. */
  lemma PostIgnoresBodyId(db: Db, novaTarefa: Tarefa, id: int)
    requires KeysBelowCounter(db)
    ensures Post(db, novaTarefa.(id := id)) == Post(db, novaTarefa)
  {
  }

  /** After a successful PUT, GET gives back exactly the body that was
      sent, since the kept id equals the body's. */
  lemma GetAfterPut(db: Db, id: int, tarefaAtualizada: Tarefa)
    requires WellKeyed(db.tarefas)
    requires Put(db, id, tarefaAtualizada).response.Ok?
    ensures Queries.GetById(Put(db, id, tarefaAtualizada).db.tarefas, id) == Ok(One(tarefaAtualizada))
  {
  }

  /** A second PATCH /concluir on the same row is refused and changes
      nothing. */
  lemma ConcluirTwice(db: Db, id: int)
    requires Concluir(db, id).response.Ok?
    ensures
      var once := Concluir(db, id).db;
      Concluir(once, id) == Outcome(once, BadRequest(MsgConcluidaAnteriormente))
  {
  }

  /** After a successful DELETE, GET on the same id gives NotFound, and a
      second DELETE does too. */
  lemma GetAfterDelete(db: Db, id: int)
    requires Delete(db, id).response.Ok?
    ensures Queries.GetById(Delete(db, id).db.tarefas, id) == NotFound
    ensures Delete(Delete(db, id).db, id).response == NotFound
  {
  }

  /** The walk-through of the service: on an empty store, POST a pending
      task, then complete it twice. */
  lemma BuyMilkScenario()
    ensures
      var empty := Db(map[], 1);
      var body := Tarefa(0, Some("buy milk"), false);
      var posted := Post(empty, body);
      var done := Concluir(posted.db, 1);
      && posted.response == Created("/api/tarefas/1", Tarefa(1, Some("buy milk"), false))
      && done.response == Ok(One(Tarefa(1, Some("buy milk"), true)))
      && Concluir(done.db, 1).response == BadRequest(MsgConcluidaAnteriormente)
  {
  }
}
