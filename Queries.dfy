/** The two read-only endpoints: GET /api/tarefas/{id} and the list query
    GET /api/tarefas?Somente_pendentes=..&descricao=.. (its fourth and live
    version). Both are expressions over the table and change nothing. */
module Queries {
  import opened Wrappers
  import opened Model
  import Strings

  /** GET /api/tarefas/{id}: `Find(id)` and NotFound when it gives null. */
  function GetById(table: Table, id: int): (r: Response)
    ensures r == NotFound <==> id !in table
    ensures id in table ==> r == Ok(One(table[id]))
  {
    if id in table then Ok(One(table[id])) else NotFound
  }

  /** `t.Descricao.Contains(descricao)` as the store evaluates it: a row
      whose description is null never matches. */
  predicate Matches(t: Tarefa, sub: string)
    ensures Matches(t, sub) <==> t.descricao.Some? && Strings.OccursIn(sub, t.descricao.value)
  {
    t.descricao.Some? && Strings.Contains(t.descricao.value, sub)
  }

  /** `somentePendentes ?? false`. */
  predicate FiltrarPendentes(somentePendentes: Option<bool>)
    ensures FiltrarPendentes(somentePendentes) <==> somentePendentes == Some(true)
  {
    somentePendentes.GetOr(false)
  }

  /** The reference meaning of the list query's filters: the description
      filter is active only for a non-null, non-empty `descricao`, the
      pending filter only when `Somente_pendentes` is true; active filters
      combine conjunctively. */
  ghost predicate Selected(t: Tarefa, somentePendentes: Option<bool>, descricao: Option<string>) {
    && (!Strings.IsNullOrEmpty(descricao) ==> t.descricao.Some? && Strings.OccursIn(descricao.value, t.descricao.value))
    && (FiltrarPendentes(somentePendentes) ==> !t.concluida)
  }

  /** `order` lists every key of `table` exactly once: the order in which
      the store enumerates the table when no ordering is asked for. */
  ghost predicate Enumerates(table: Table, order: seq<int>) {
    && NoDup(order)
    && (forall k :: k in order <==> k in table)
  }

  /** The rows of the table in the store's order (`AsQueryable`). */
  function Rows(table: Table, order: seq<int>): (rows: seq<Tarefa>)
    requires WellKeyed(table) && Enumerates(table, order)
    ensures forall t :: t in rows ==> t.id in table && table[t.id] == t
    ensures forall k :: k in table ==> table[k] in rows
    ensures NoDup(rows)
  {
    assert forall i :: 0 <= i < |order| ==> order[i] in table by {
      forall i | 0 <= i < |order| ensures order[i] in table {
        var k := order[i];
        assert k in order;
      }
    }
    var rows := seq(|order|, i requires 0 <= i < |order| => table[order[i]]);
    assert forall t :: t in rows ==> t.id in table && table[t.id] == t by {
      forall t | t in rows ensures t.id in table && table[t.id] == t {
        var i :| 0 <= i < |rows| && rows[i] == t;
        var k := order[i];
        assert table[k].id == k;
      }
    }
    assert forall k :: k in table ==> table[k] in rows by {
      forall k | k in table ensures table[k] in rows {
        var i :| 0 <= i < |order| && order[i] == k;
        assert rows[i] == table[k];
      }
    }
    assert NoDup(rows) by {
      forall i, j | 0 <= i < j < |rows| ensures rows[i] != rows[j] {
        assert rows[i].id == order[i] && rows[j].id == order[j];
      }
    }
    rows
  }

  /** `Where(keep)`: the elements that satisfy `keep`, in their order. */
  function Where(s: seq<Tarefa>, keep: Tarefa -> bool): (r: seq<Tarefa>)
    ensures forall t :: t in r <==> t in s && keep(t)
    ensures multiset(r) <= multiset(s)
  {
    if s == [] then []
    else
      var rest := Where(s[1..], keep);
      assert s == [s[0]] + s[1..];
      if keep(s[0]) then [s[0]] + rest else rest
  }

  /** In a sequence without repetitions every element occurs once. */
  lemma {:induction false} NoDupCounts(s: seq<Tarefa>)
    requires NoDup(s)
    ensures forall t :: multiset(s)[t] <= 1
  {
    if s != [] {
      var tail := s[1..];
      assert s == [s[0]] + tail;
      assert NoDup(tail) by {
        forall i, j | 0 <= i < j < |tail| ensures tail[i] != tail[j] {
          assert tail[i] == s[i + 1] && tail[j] == s[j + 1];
        }
      }
      NoDupCounts(tail);
      assert s[0] !in tail;
    }
  }

  /** An element found at two positions occurs at least twice. */
  lemma RepeatCounts(s: seq<Tarefa>, i: int, j: int)
    requires 0 <= i < j < |s| && s[i] == s[j]
    ensures multiset(s)[s[j]] >= 2
  {
    var t := s[j];
    assert s == s[..j] + [t] + s[j + 1..];
    assert s[..j][i] == t;
    assert t in multiset(s[..j]);
  }

  /** Dropping elements, or reordering them, cannot create a repetition. */
  lemma SubMultisetNoDup(a: seq<Tarefa>, b: seq<Tarefa>)
    requires multiset(a) <= multiset(b) && NoDup(b)
    ensures NoDup(a)
  {
    NoDupCounts(b);
    forall i, j | 0 <= i < j < |a| ensures a[i] != a[j] {
      if a[i] == a[j] {
        RepeatCounts(a, i, j);
      }
    }
  }

  /** Ids never increase along `s`. */
  predicate NonIncreasingIds(s: seq<Tarefa>) {
    forall i, j :: 0 <= i < j < |s| ==> s[i].id >= s[j].id
  }

  /** Ids strictly decrease along `s`. */
  predicate DecreasingIds(s: seq<Tarefa>) {
    forall i, j :: 0 <= i < j < |s| ==> s[i].id > s[j].id
  }

  /** Prepending an element whose id bounds every id in `s` keeps the ids
      non-increasing. */
  lemma NonIncreasingCons(x: Tarefa, s: seq<Tarefa>)
    requires NonIncreasingIds(s)
    requires forall t :: t in s ==> t.id <= x.id
    ensures NonIncreasingIds([x] + s)
  {
  }

  /** Placing `x` in front of `s` is sorted when `x`'s id is at least
      that of `s`'s first element. */
  lemma InsertFront(x: Tarefa, s: seq<Tarefa>)
    requires NonIncreasingIds(s)
    requires s == [] || x.id >= s[0].id
    ensures NonIncreasingIds([x] + s)
  {
  }

  /** Keeping `s`'s first element in front of `x` inserted into the rest is
      sorted when `x`'s id is smaller than that element's. */
  lemma InsertBehind(x: Tarefa, s: seq<Tarefa>, rest: seq<Tarefa>)
    requires NonIncreasingIds(s) && s != [] && x.id < s[0].id
    requires NonIncreasingIds(rest) && multiset(rest) == multiset(s[1..]) + multiset{x}
    ensures NonIncreasingIds([s[0]] + rest)
    ensures multiset([s[0]] + rest) == multiset(s) + multiset{x}
  {
    assert s == [s[0]] + s[1..];
    forall t | t in rest ensures t.id <= s[0].id {
      assert t in multiset(rest);
      if t != x {
        assert t in multiset(s[1..]);
        var j :| 0 <= j < |s[1..]| && s[1..][j] == t;
        assert s[0].id >= s[j + 1].id;
      }
    }
    NonIncreasingCons(s[0], rest);
  }

  /** Places `x` before the first element whose id is not greater. */
  function InsertById(x: Tarefa, s: seq<Tarefa>): (r: seq<Tarefa>)
    requires NonIncreasingIds(s)
    ensures NonIncreasingIds(r)
    ensures multiset(r) == multiset(s) + multiset{x}
  {
    if s == [] || x.id >= s[0].id then
      InsertFront(x, s);
      [x] + s
    else
      var rest := InsertById(x, s[1..]);
      InsertBehind(x, s, rest);
      [s[0]] + rest
  }

  /** `OrderByDescending(t => t.Id)`: a sort by id, largest first. */
  function OrderByIdDescending(s: seq<Tarefa>): (r: seq<Tarefa>)
    ensures NonIncreasingIds(r)
    ensures multiset(r) == multiset(s)
  {
    if s == [] then []
    else
      assert s == [s[0]] + s[1..];
      InsertById(s[0], OrderByIdDescending(s[1..]))
  }

  /** Ids in a sorted list of distinct rows of a well-keyed table strictly
      decrease. */
  lemma DistinctRowsDecrease(table: Table, r: seq<Tarefa>)
    requires NonIncreasingIds(r) && NoDup(r)
    requires forall t :: t in r ==> t.id in table && table[t.id] == t
    ensures DecreasingIds(r)
  {
  }

  /** The description clause of the list query: `Where(t =>
      t.Descricao.Contains(descricao))`, applied only when `descricao` is
      neither null nor empty. */
  function FilterDescricao(s: seq<Tarefa>, descricao: Option<string>): (r: seq<Tarefa>)
    ensures forall t :: t in r <==> t in s && (!Strings.IsNullOrEmpty(descricao) ==> t.descricao.Some? && Strings.OccursIn(descricao.value, t.descricao.value))
    ensures multiset(r) <= multiset(s)
  {
    if !Strings.IsNullOrEmpty(descricao) then Where(s, (t: Tarefa) => Matches(t, descricao.value)) else s
  }

  /** The pending clause of the list query: `Where(t => !t.Concluida)
      .OrderByDescending(t => t.Id)`, applied only when `filtrar` holds. */
  function FilterPendentes(s: seq<Tarefa>, filtrar: bool): (r: seq<Tarefa>)
    ensures forall t :: t in r <==> t in s && (filtrar ==> !t.concluida)
    ensures multiset(r) <= multiset(s)
    ensures filtrar ==> NonIncreasingIds(r)
  {
    if filtrar then
      var pendentes := Where(s, (t: Tarefa) => !t.concluida);
      var r := OrderByIdDescending(pendentes);
      assert forall t :: t in r <==> t in pendentes by {
        forall t ensures t in r <==> t in pendentes {
          assert t in r <==> t in multiset(r);
          assert t in pendentes <==> t in multiset(pendentes);
        }
      }
      r
    else s
  }

  /** GET /api/tarefas, version 4: start from every row, keep those whose
      description contains `descricao` when it is neither null nor empty,
      then, when `Somente_pendentes` is true, keep the pending rows and
      order them by id, largest first. */
  function List(table: Table, storeOrder: seq<int>, somentePendentes: Option<bool>, descricao: Option<string>): (r: seq<Tarefa>)
    requires WellKeyed(table) && Enumerates(table, storeOrder)
    ensures forall t :: t in r ==> t.id in table && table[t.id] == t
    ensures forall t :: t in r ==> Selected(t, somentePendentes, descricao)
    ensures forall k :: k in table && Selected(table[k], somentePendentes, descricao) ==> table[k] in r
    ensures NoDup(r)
    ensures FiltrarPendentes(somentePendentes) ==> DecreasingIds(r)
  {
    var filtrarPendentes := somentePendentes.GetOr(false);
    var query := Rows(table, storeOrder);
    var filtered := FilterDescricao(query, descricao);
    var r := FilterPendentes(filtered, filtrarPendentes);
    assert multiset(r) <= multiset(query);
    SubMultisetNoDup(r, query);
    assert filtrarPendentes ==> DecreasingIds(r) by {
      if filtrarPendentes { DistinctRowsDecrease(table, r); }
    }
    r
  }

  /** An absent `Somente_pendentes` means false, and a null `descricao`
      means the same as an empty one: neither filter applies. Without
      either filter the query returns the whole table in the store's order. */
  lemma ListDefaults(table: Table, storeOrder: seq<int>, somentePendentes: Option<bool>, descricao: Option<string>)
    requires WellKeyed(table) && Enumerates(table, storeOrder)
    ensures List(table, storeOrder, None, descricao) == List(table, storeOrder, Some(false), descricao)
    ensures List(table, storeOrder, somentePendentes, None) == List(table, storeOrder, somentePendentes, Some(""))
    ensures List(table, storeOrder, None, None) == Rows(table, storeOrder)
  {
  }
}
