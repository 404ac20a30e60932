/** The live HTTP controller: which body keys reach each use case, and how a
    use case's outcome becomes a status code and a JSON body. */
module Controller {
  import opened JsValues
  import opened Outcomes
  import opened TodoEntity
  import opened Repository
  import DomainUseCases

  /** The body the controller sends for a falsy use-case result. */
  const TaskNotFound := "Tarea no encontrada"
  const TaskDeleted := "Tarea eliminada"

  /** A parsed JSON request body; keys it lacks read as `undefined`. */
  type Body = map<string, JsValue>

  /** What `res.json(...)` serializes: `{ message }`, one todo, or a list. */
  datatype Payload = Message(text: string) | One(todo: Todo) | Many(todos: seq<Todo>)

  datatype Response = Response(status: nat, payload: Payload)

  /** A request's effect: the store afterwards and the response sent. */
  datatype Handled = Handled(store: Store, response: Response)

  /** `req.body.<key>`. */
  function Field(body: Body, key: string): (v: JsValue)
    ensures key !in body ==> v == Undefined
    ensures key in body ==> v == body[key]
  {
    if key in body then body[key] else Undefined
  }

  /** getAllTodos: 200 with the list, or 500 with the error message. */
  function GetAllResponse(r: Result<seq<Todo>>): (resp: Response)
    ensures resp.status in {200, 500}
    ensures resp.status == 200 <==> r.Ok?
    ensures r.Ok? ==> resp.payload == Many(r.value)
    ensures r.Err? ==> resp.payload == Message(r.message)
  {
    match r
    case Ok(todos) => Response(200, Many(todos))
    case Err(m) => Response(500, Message(m))
  }

  method GetAllTodos(store: Store, env: DomainUseCases.Env) returns (resp: Response)
    ensures resp.status in {200, 500}
    ensures resp.status == 200 <==> env.lookup.None?
    ensures resp.status == 200 ==> resp.payload.Many? && Enumerates(store, resp.payload.todos)
    ensures resp.status == 500 ==> resp.payload == Message(DomainUseCases.GetAllFailed)
    ensures env.lookup.None? && store == map[] ==> resp == Response(200, Many([]))
  {
    var r := DomainUseCases.GetAllTodos(store, env);
    resp := GetAllResponse(r);
  }

  /** createTodo forwards `title` and `description` only. */
  function CreateData(body: Body): (data: TodoData)
    ensures data.title == Field(body, "title") && data.description == Field(body, "description")
    ensures data.id == Undefined && data.completed == Undefined
  {
    TodoData(Undefined, Field(body, "title"), Field(body, "description"), Undefined)
  }

  /** createTodo: 201 with the new todo, or 400 with the error message. */
  function CreateResponse(r: Result<Todo>): (resp: Response)
    ensures resp.status in {201, 400}
    ensures resp.status == 201 <==> r.Ok?
    ensures r.Ok? ==> resp.payload == One(r.value)
    ensures r.Err? ==> resp.payload == Message(r.message)
  {
    match r
    case Ok(t) => Response(201, One(t))
    case Err(m) => Response(400, Message(m))
  }

  function CreateTodo(store: Store, body: Body, env: DomainUseCases.Env): (h: Handled)
    ensures h.response.status in {201, 400}
    ensures h.response.status == 201 <==>
      Truthy(Field(body, "title")) && env.write.None? && env.freshId !in store
    ensures h.response.status == 400 ==> h.store == store
    ensures !Truthy(Field(body, "title")) ==>
      h == Handled(store, Response(400, Message(DomainUseCases.TitleRequired)))
    ensures Truthy(Field(body, "title")) && h.response.status == 400 ==>
      h.response.payload == Message(DomainUseCases.CreateFailed)
    ensures h.response.status == 201 ==>
      && h.response.payload.One?
      && var t := h.response.payload.todo;
      && t.id == env.freshId && t.completed == Bool(false)
      && t.title == Field(body, "title") && t.description == Field(body, "description")
      && h.store.Keys == store.Keys + {t.id}
      && |h.store| == |store| + 1
      && (forall k :: k in store ==> h.store[k] == store[k])
      && t == ToEntity(h.store[t.id])
  {
    var out := DomainUseCases.CreateTodo(store, CreateData(body), env);
    Handled(out.store, CreateResponse(out.result))
  }

  /** updateTodo forwards `title`, `description` and `completed`. */
  function UpdateData(body: Body): (data: TodoData)
    ensures data.title == Field(body, "title") && data.description == Field(body, "description")
    ensures data.completed == Field(body, "completed")
  {
    TodoData(Undefined, Field(body, "title"), Field(body, "description"), Field(body, "completed"))
  }

  /** updateTodo: 200 with the todo; 404 for a `null` result and for every
      thrown error, validation failures included. */
  function UpdateResponse(r: Result<Option<Todo>>): (resp: Response)
    ensures resp.status in {200, 404}
    ensures resp.status == 200 <==> r.Ok? && r.value.Some?
    ensures resp.status == 200 ==> resp.payload == One(r.value.value)
    ensures r.Ok? && r.value.None? ==> resp.payload == Message(TaskNotFound)
    ensures r.Err? ==> resp.payload == Message(r.message)
  {
    match r
    case Ok(None) => Response(404, Message(TaskNotFound))
    case Ok(Some(t)) => Response(200, One(t))
    case Err(m) => Response(404, Message(m))
  }

  function UpdateTodo(store: Store, id: Id, body: Body, env: DomainUseCases.Env): (h: Handled)
    ensures h.response.status in {200, 404}
    ensures h.response.status == 200 <==> id != "" && DomainUseCases.Healthy(env) && id in store
    ensures h.response.status == 404 ==> h.store == store
    ensures h.response.payload != Message(TaskNotFound)
    ensures id == "" ==> h.response == Response(404, Message(DomainUseCases.IdRequired))
    ensures id != "" && h.response.status == 404 ==>
      h.response.payload == Message(DomainUseCases.UpdateFailed)
    ensures h.response.status == 200 ==>
      && h.response.payload.One?
      && var t := h.response.payload.todo;
      && h.store.Keys == store.Keys
      && t.id == id && t.createdAt == store[id].createdAt
      && t == ToEntity(h.store[id])
      && (forall k :: k in store && k != id ==> h.store[k] == store[k])
      && (Field(body, "title") != Undefined ==> t.title == Field(body, "title"))
      && (Field(body, "description") != Undefined ==> t.description == Field(body, "description"))
      && (Field(body, "completed") != Undefined ==> t.completed == Field(body, "completed"))
  {
    var out := DomainUseCases.UpdateTodo(store, id, UpdateData(body), env);
    Handled(out.store, UpdateResponse(out.result))
  }

  /** deleteTodo: 200 with a confirmation for a truthy result; 404 for a falsy
      result and for every thrown error. */
  function DeleteResponse(r: Result<bool>): (resp: Response)
    ensures resp.status in {200, 404}
    ensures resp.status == 200 <==> r == Ok(true)
    ensures resp.status == 200 ==> resp.payload == Message(TaskDeleted)
    ensures r == Ok(false) ==> resp.payload == Message(TaskNotFound)
    ensures r.Err? ==> resp.payload == Message(r.message)
  {
    match r
    case Ok(false) => Response(404, Message(TaskNotFound))
    case Ok(true) => Response(200, Message(TaskDeleted))
    case Err(m) => Response(404, Message(m))
  }

  function DeleteTodo(store: Store, id: Id, env: DomainUseCases.Env): (h: Handled)
    ensures h.response.status in {200, 404}
    ensures h.response.status == 200 <==> id != "" && DomainUseCases.Healthy(env) && id in store
    ensures h.response.status == 404 ==> h.store == store
    ensures h.response.payload != Message(TaskNotFound)
    ensures id == "" ==> h.response == Response(404, Message(DomainUseCases.IdRequired))
    ensures id != "" && h.response.status == 404 ==>
      h.response.payload == Message(DomainUseCases.DeleteFailed)
    ensures h.response.status == 200 ==>
      && h.response.payload == Message(TaskDeleted)
      && h.store.Keys == store.Keys - {id}
      && |h.store| == |store| - 1
      && (forall k :: k in h.store ==> h.store[k] == store[k])
  {
    var out := DomainUseCases.DeleteTodo(store, id, env);
    Handled(out.store, DeleteResponse(out.result))
  }
}
