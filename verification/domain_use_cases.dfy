/** The four use cases the live application wires up. Each checks its input,
    calls the repository inside a `try`, and rewrites every failure raised
    there into one fixed message. */
module DomainUseCases {
  import opened JsValues
  import opened Outcomes
  import opened TodoEntity
  import opened Repository

  const TitleRequired := "El título es requerido"
  const CreateFailed := "Error al crear el todo"
  const GetAllFailed := "Error al obtener todos los todos"
  const IdRequired := "El ID es requerido"
  const NotFound := "Todo no encontrado"
  const UpdateFailed := "Error al actualizar el todo"
  const DeleteFailed := "Error al eliminar el todo"

  /** Everything a request depends on besides the store: the id and time the
      store would assign to a new document, whether the lookup call and the
      writing call throw, and how the store treats `undefined` update fields. */
  datatype Env = Env(freshId: Id, now: Time, lookup: Fault, write: Fault, absent: AbsentPolicy)

  /** The environment in which no driver call throws. */
  predicate Healthy(env: Env)
  {
    env.lookup.None? && env.write.None?
  }

  /** Create: a falsy title is refused before the repository is reached;
      `completed` defaults to `false`; any repository failure becomes
      `CreateFailed`. */
  function CreateTodo(store: Store, data: TodoData, env: Env): (out: Transition<Todo>)
    ensures !Truthy(data.title) ==> out == Transition(store, Err(TitleRequired))
    ensures Truthy(data.title) && out.result.Err? ==> out.result.message == CreateFailed
    ensures out.result.Ok? <==> Truthy(data.title) && env.write.None? && env.freshId !in store
    ensures out.result.Err? ==> out.store == store
    ensures out.result.Ok? ==>
      var t := out.result.value;
      && t.id !in store && t.id == env.freshId && t.createdAt == env.now
      && out.store.Keys == store.Keys + {t.id}
      && |out.store| == |store| + 1
      && (forall k :: k in store ==> out.store[k] == store[k])
      && t == ToEntity(out.store[t.id])
      && t.title == data.title && t.description == data.description
      && Truthy(t.title)
      && (Truthy(data.completed) ==> t.completed == data.completed)
      && (!Truthy(data.completed) ==> t.completed == Bool(false))
  {
    if !Truthy(data.title) then
      Transition(store, Err(TitleRequired))
    else
      OrFalseDefault(data.completed);
      var out := Repository.Create(store,
        TodoData(data.id, data.title, data.description, Or(data.completed, Bool(false))),
        env.freshId, env.now, env.write);
      Transition(out.store, Rewrap(out.result, CreateFailed))
  }

  /** GetAll: the repository's listing, or `GetAllFailed`. It takes no store
      out, so the store is the same afterwards. */
  method GetAllTodos(store: Store, env: Env) returns (r: Result<seq<Todo>>)
    ensures env.lookup.Some? ==> r == Err(GetAllFailed)
    ensures env.lookup.None? ==> r.Ok? && Enumerates(store, r.value)
    ensures env.lookup.None? && store == map[] ==> r == Ok([])
  {
    var listed := FindAll(store, env.lookup);
    r := Rewrap(listed, GetAllFailed);
  }

  /** The `try` block of Update, before its `catch` rewrites the message. */
  function UpdateAttempt(store: Store, id: Id, data: TodoData, env: Env): (out: Transition<Option<Todo>>)
    ensures out.result.Err? ==> out.store == store
    ensures env.lookup.None? && id !in store ==> out == Transition(store, Err(NotFound))
  {
    match FindById(store, id, env.lookup)
    case Err(m) => Transition(store, Err(m))
    case Ok(None) => Transition(store, Err(NotFound))
    case Ok(Some(_)) =>
      Repository.Update(store, id, TodoData(Undefined, data.title, data.description, data.completed),
                        env.write, env.absent)
  }

  /** Update: an empty id is refused before any lookup; an absent id or a
      driver failure gives `UpdateFailed`; otherwise the supplied fields are
      written as given, with no merge. */
  function UpdateTodo(store: Store, id: Id, data: TodoData, env: Env): (out: Transition<Option<Todo>>)
    ensures id == "" ==> out == Transition(store, Err(IdRequired))
    ensures id != "" && out.result.Err? ==> out.result.message == UpdateFailed
    ensures out.result.Err? ==> out.store == store
    ensures out.result.Ok? <==> id != "" && Healthy(env) && id in store
    ensures out.result.Ok? ==>
      && out.result.value.Some?
      && var t := out.result.value.value;
      && out.store.Keys == store.Keys
      && t.id == id && t.createdAt == store[id].createdAt
      && t == ToEntity(out.store[id])
      && (forall k :: k in store && k != id ==> out.store[k] == store[k])
      && (data.title != Undefined ==> t.title == data.title)
      && (data.description != Undefined ==> t.description == data.description)
      && (data.completed != Undefined ==> t.completed == data.completed)
  {
    if id == "" then
      Transition(store, Err(IdRequired))
    else
      var out := UpdateAttempt(store, id, data, env);
      Transition(out.store, Rewrap(out.result, UpdateFailed))
  }

  /** Delete: an empty id is refused before any lookup; an absent id or a
      driver failure gives `DeleteFailed`; otherwise exactly that record goes
      and the answer is `true`. */
  function DeleteTodo(store: Store, id: Id, env: Env): (out: Transition<bool>)
    ensures id == "" ==> out == Transition(store, Err(IdRequired))
    ensures id != "" && out.result.Err? ==> out.result.message == DeleteFailed
    ensures out.result.Err? ==> out.store == store
    ensures out.result.Ok? <==> id != "" && Healthy(env) && id in store
    ensures out.result != Ok(false)
    ensures out.result.Ok? ==>
      && out.store.Keys == store.Keys - {id}
      && |out.store| == |store| - 1
      && (forall k :: k in out.store ==> out.store[k] == store[k])
  {
    if id == "" then
      Transition(store, Err(IdRequired))
    else
      var attempt :=
        match FindById(store, id, env.lookup)
        case Err(m) => Transition(store, Err(m))
        case Ok(None) => Transition(store, Err(NotFound))
        case Ok(Some(_)) =>
          var out := Repository.Delete(store, id, env.write);
          Transition(out.store, if out.result.Ok? then Ok(true) else Err(out.result.message));
      Transition(attempt.store, Rewrap(attempt.result, DeleteFailed))
  }

  /** The message the update `try` block throws for an absent id never reaches
      the caller: it is replaced by `UpdateFailed`. */
  lemma NotFoundIsRewritten(store: Store, id: Id, data: TodoData, env: Env)
    requires id != "" && env.lookup.None? && id !in store
    ensures UpdateAttempt(store, id, data, env).result == Err(NotFound)
    ensures UpdateTodo(store, id, data, env).result == Err(UpdateFailed)
  {
  }

  /** Unlike the application-layer merge, this update writes an explicit
      `completed: false` over a stored `true`. */
  lemma UpdateClearsCompleted(store: Store, id: Id, data: TodoData, env: Env)
    requires id != "" && id in store && Healthy(env)
    requires store[id].completed == Bool(true) && data.completed == Bool(false)
    ensures var out := UpdateTodo(store, id, data, env);
            out.result.Ok? && out.result.value.Some? && out.result.value.value.completed == Bool(false)
  {
  }

  /** Deleting the same id twice: `true` the first time, `DeleteFailed` the second. */
  lemma DeleteTwice(store: Store, id: Id, env1: Env, env2: Env)
    requires id in store && id != "" && Healthy(env1)
    ensures var first := DeleteTodo(store, id, env1);
            var second := DeleteTodo(first.store, id, env2);
            && first.result == Ok(true)
            && second.result == Err(DeleteFailed)
            && second.store == first.store
  {
  }
}
