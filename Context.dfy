/** The database session the writing handlers receive: it holds table
    `tarefa` and the auto-increment counter, and each handler changes them
    in place (`Add`, `Remove`, assignments to a tracked row, then
    `SaveChanges`). A session is opened over what the store holds, and what
    it holds after `SaveChanges` is what the store holds next. Each method
    is proved to do what the corresponding function of `Handlers`
    specifies. */
module Context {
  import opened Wrappers
  import opened Model
  import Strings
  import Routes
  import Handlers

  class TarefasContext {
    var tarefas: Table
    var nextId: int

    /** The state as a value. */
    function State(): Handlers.Db
      reads this
    {
      Handlers.Db(tarefas, nextId)
    }

    ghost predicate Valid()
      reads this
    {
      Handlers.Valid(State())
    }

    /** A session opened over the table as the store holds it: it sees
        every row already there and the store's next key. */
    constructor (init: Handlers.Db)
      requires Handlers.Valid(init)
      ensures Valid()
      ensures State() == init
    {
      tarefas := init.tarefas;
      nextId := init.nextId;
    }

    /** POST /api/tarefas. */
    method Post(novaTarefa: Tarefa) returns (r: Response)
      requires Valid()
      modifies this
      ensures Valid()
      ensures Handlers.Outcome(State(), r) == Handlers.Post(old(State()), novaTarefa)
    {
      if Strings.IsNullOrEmpty(novaTarefa.descricao) {
        return BadRequest(Handlers.MsgCadastroSemDescricao);
      }
      var tarefa := Tarefa(0, novaTarefa.descricao, novaTarefa.concluida);
      // Add, then SaveChanges: the store assigns the next key to the row.
      tarefa := tarefa.(id := nextId);
      tarefas := tarefas[tarefa.id := tarefa];
      nextId := nextId + 1;
      r := Created(Routes.Location(tarefa.id), tarefa);
    }

    /** PUT /api/tarefas/{id}. */
    method Put(id: int, tarefaAtualizada: Tarefa) returns (r: Response)
      requires Valid()
      modifies this
      ensures Valid()
      ensures Handlers.Outcome(State(), r) == Handlers.Put(old(State()), id, tarefaAtualizada)
    {
      if tarefaAtualizada.id != id {
        return BadRequest(Handlers.MsgIdInconsistente);
      }
      if Strings.IsNullOrEmpty(tarefaAtualizada.descricao) {
        return BadRequest(Handlers.MsgAlteracaoSemDescricao);
      }
      if id !in tarefas {
        return NotFound;
      }
      var tarefa := tarefas[id];
      tarefa := tarefa.(descricao := tarefaAtualizada.descricao);
      tarefa := tarefa.(concluida := tarefaAtualizada.concluida);
      tarefas := tarefas[id := tarefa];
      r := Ok(One(tarefa));
    }

    /** PATCH /api/tarefas/{id}/concluir. */
    method Concluir(id: int) returns (r: Response)
      requires Valid()
      modifies this
      ensures Valid()
      ensures Handlers.Outcome(State(), r) == Handlers.Concluir(old(State()), id)
    {
      if id !in tarefas {
        return NotFound;
      }
      var tarefa := tarefas[id];
      if tarefa.concluida {
        return BadRequest(Handlers.MsgConcluidaAnteriormente);
      }
      tarefa := tarefa.(concluida := true);
      tarefas := tarefas[id := tarefa];
      r := Ok(One(tarefa));
    }

    /** DELETE /api/tarefas/{id}. */
    method Delete(id: int) returns (r: Response)
      requires Valid()
      modifies this
      ensures Valid()
      ensures Handlers.Outcome(State(), r) == Handlers.Delete(old(State()), id)
    {
      if id !in tarefas {
        return NotFound;
      }
      tarefas := tarefas - {id};
      r := Ok(Empty);
    }
  }

  /** A client that relies only on the methods' contracts. Every request
      gets its own session over what the previous one left: create a task
      in an empty table, complete it, fail to complete it again, delete it,
      and find it gone. */
  method Session() {
    var db := new TarefasContext(Handlers.Db(map[], 1));
    var created := db.Post(Tarefa(42, Some("buy milk"), false));
    assert created.Created? && created.tarefa.id == 1;
    db := new TarefasContext(db.State());
    var done := db.Concluir(1);
    assert done == Ok(One(Tarefa(1, Some("buy milk"), true)));
    db := new TarefasContext(db.State());
    var again := db.Concluir(1);
    assert again.BadRequest?;
    db := new TarefasContext(db.State());
    var deleted := db.Delete(1);
    assert deleted == Ok(Empty);
    db := new TarefasContext(db.State());
    var gone := db.Delete(1);
    assert gone == NotFound;
  }
}
