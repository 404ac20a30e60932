/** End-to-end facts about request sequences through the controller, the
    domain use cases and the repository. */
module Scenarios {
  import opened JsValues
  import opened Outcomes
  import opened TodoEntity
  import opened Repository
  import opened DomainUseCases
  import Controller

  /** A body with the given title and description, as a client posts it. */
  function PostBody(title: string, description: string): Controller.Body
  {
    map["title" := Str(title), "description" := Str(description)]
  }

  /** Creating a todo: 201, `completed` false, the supplied fields, a new id,
      and the new entity is in the store. */
  lemma CreateAnswers201(store: Store, title: string, description: string, env: Env)
    requires title != "" && env.write.None? && env.freshId !in store
    ensures var h := Controller.CreateTodo(store, PostBody(title, description), env);
            && h.response.status == 201
            && h.response.payload.One?
            && h.response.payload.todo.title == Str(title)
            && h.response.payload.todo.description == Str(description)
            && h.response.payload.todo.completed == Bool(false)
            && h.response.payload.todo.id !in store
            && h.response.payload.todo in Entities(h.store)
  {
  }

  /** A body that asks for `completed: true` still creates an incomplete todo,
      because the controller never forwards that key. */
  lemma CreateIgnoresCompleted(store: Store, body: Controller.Body, env: Env)
    requires "completed" in body && body["completed"] == Bool(true)
    ensures var h := Controller.CreateTodo(store, body, env);
            h.response.status == 201 ==> h.response.payload.todo.completed == Bool(false)
  {
  }

  /** A create that does not answer 201 answers 400 and leaves the store alone;
      without a title it is always refused. */
  lemma FailedCreateKeepsStore(store: Store, body: Controller.Body, env: Env)
    requires "title" !in body
    ensures var h := Controller.CreateTodo(store, body, env);
            h == Controller.Handled(store, Controller.Response(400, Controller.Message(TitleRequired)))
  {
  }

  /** A create followed by a delete of the id it returned restores the store.
      Generated ids are never empty, which `freshId != ""` records. */
  lemma CreateThenDeleteRestores(store: Store, body: Controller.Body, env1: Env, env2: Env)
    requires env1.freshId != "" && Healthy(env2)
    ensures var c := Controller.CreateTodo(store, body, env1);
            c.response.status == 201 ==>
              var d := Controller.DeleteTodo(c.store, c.response.payload.todo.id, env2);
              d.response.status == 200 && d.store == store
  {
  }

  /** Deleting an existing todo twice: 200 and one record fewer, then 404 and
      no further change. */
  lemma DeleteTwiceAnswers200Then404(store: Store, id: Id, env1: Env, env2: Env)
    requires id != "" && id in store && Healthy(env1)
    ensures var first := Controller.DeleteTodo(store, id, env1);
            var second := Controller.DeleteTodo(first.store, id, env2);
            && first.response.status == 200
            && |first.store| == |store| - 1
            && second.response.status == 404
            && second.store == first.store
  {
  }

  /** Updating or deleting an id with no record answers 404, whatever else happens. */
  lemma AbsentIdAnswers404(store: Store, id: Id, body: Controller.Body, env: Env)
    requires id !in store
    ensures Controller.UpdateTodo(store, id, body, env) ==
            Controller.Handled(store, Controller.Response(404, Controller.Message(
              if id == "" then IdRequired else UpdateFailed)))
    ensures Controller.DeleteTodo(store, id, env) ==
            Controller.Handled(store, Controller.Response(404, Controller.Message(
              if id == "" then IdRequired else DeleteFailed)))
  {
  }

  /** Updating an existing todo with a new title and `completed: true` answers
      200 with both changed and the creation time kept; the description is kept
      too when the store leaves unsupplied fields alone. */
  lemma UpdateAnswers200(store: Store, id: Id, title: string, env: Env)
    requires id != "" && id in store && Healthy(env) && title != ""
    ensures var body := map["title" := Str(title), "completed" := Bool(true)];
            var h := Controller.UpdateTodo(store, id, body, env);
            && h.response.status == 200
            && h.response.payload.todo.title == Str(title)
            && h.response.payload.todo.completed == Bool(true)
            && h.response.payload.todo.createdAt == store[id].createdAt
            && (env.absent == KeepAbsent ==> h.response.payload.todo.description == store[id].description)
  {
  }

  /** The store and responses after posting each body in turn. */
  datatype Batch = Batch(store: Store, responses: seq<Controller.Response>)

  function CreateEach(store: Store, bodies: seq<Controller.Body>, envs: seq<Env>): (b: Batch)
    requires |bodies| == |envs|
    decreases |bodies|
  {
    if bodies == [] then Batch(store, [])
    else
      var h := Controller.CreateTodo(store, bodies[0], envs[0]);
      var rest := CreateEach(h.store, bodies[1..], envs[1..]);
      Batch(rest.store, [h.response] + rest.responses)
  }

  /** How many responses are 201. */
  function Created(responses: seq<Controller.Response>): nat
  {
    if responses == [] then 0
    else (if responses[0].status == 201 then 1 else 0) + Created(responses[1..])
  }

  /** Every post answers once, and the store grows by exactly the number of
      201 answers: a refused post adds nothing. */
  lemma {:induction false} CreateEachGrowsByCreated(store: Store, bodies: seq<Controller.Body>, envs: seq<Env>)
    requires |bodies| == |envs|
    ensures var b := CreateEach(store, bodies, envs);
            |b.responses| == |bodies| && |b.store| == |store| + Created(b.responses)
    decreases |bodies|
  {
    if bodies != [] {
      var h := Controller.CreateTodo(store, bodies[0], envs[0]);
      CreateEachGrowsByCreated(h.store, bodies[1..], envs[1..]);
      var rest := CreateEach(h.store, bodies[1..], envs[1..]);
      assert ([h.response] + rest.responses)[1..] == rest.responses;
    }
  }

  /** The ids the store would assign to a sequence of posts. */
  function FreshIds(envs: seq<Env>): set<Id>
  {
    if envs == [] then {} else {envs[0].freshId} + FreshIds(envs[1..])
  }

  /** Each post carries a title, meets no write failure, and gets an id that
      neither the store nor an earlier post holds. */
  predicate Postable(keys: set<Id>, bodies: seq<Controller.Body>, envs: seq<Env>)
    requires |bodies| == |envs|
    decreases |bodies|
  {
    || bodies == []
    || (&& Truthy(Controller.Field(bodies[0], "title"))
        && envs[0].write.None?
        && envs[0].freshId !in keys
        && Postable(keys + {envs[0].freshId}, bodies[1..], envs[1..]))
  }

  /** Postable posts all answer 201. */
  lemma {:induction false} CreateEachAllAnswer201(store: Store, bodies: seq<Controller.Body>, envs: seq<Env>)
    requires |bodies| == |envs| && Postable(store.Keys, bodies, envs)
    ensures Created(CreateEach(store, bodies, envs).responses) == |bodies|
    decreases |bodies|
  {
    if bodies != [] {
      var h := Controller.CreateTodo(store, bodies[0], envs[0]);
      assert h.store.Keys == store.Keys + {envs[0].freshId};
      CreateEachAllAnswer201(h.store, bodies[1..], envs[1..]);
      var rest := CreateEach(h.store, bodies[1..], envs[1..]);
      assert ([h.response] + rest.responses)[1..] == rest.responses;
    }
  }

  /** Postable posts add exactly their assigned ids to the store. */
  lemma {:induction false} CreateEachAddsFreshIds(store: Store, bodies: seq<Controller.Body>, envs: seq<Env>)
    requires |bodies| == |envs| && Postable(store.Keys, bodies, envs)
    ensures CreateEach(store, bodies, envs).store.Keys == store.Keys + FreshIds(envs)
    decreases |bodies|
  {
    if bodies != [] {
      var h := Controller.CreateTodo(store, bodies[0], envs[0]);
      assert h.store.Keys == store.Keys + {envs[0].freshId};
      CreateEachAddsFreshIds(h.store, bodies[1..], envs[1..]);
    }
  }

  /** Postable posts leave every earlier record as it was. */
  lemma {:induction false} CreateEachKeepsRecords(store: Store, bodies: seq<Controller.Body>, envs: seq<Env>)
    requires |bodies| == |envs| && Postable(store.Keys, bodies, envs)
    ensures var s := CreateEach(store, bodies, envs).store;
            forall k :: k in store ==> k in s && s[k] == store[k]
    decreases |bodies|
  {
    if bodies != [] {
      var h := Controller.CreateTodo(store, bodies[0], envs[0]);
      assert h.store.Keys == store.Keys + {envs[0].freshId};
      CreateEachKeepsRecords(h.store, bodies[1..], envs[1..]);
    }
  }

  /** `id` holds an incomplete todo with the title and description of `body`. */
  predicate HoldsPost(s: Store, id: Id, body: Controller.Body)
  {
    && id in s
    && ToEntity(s[id]).title == Controller.Field(body, "title")
    && ToEntity(s[id]).description == Controller.Field(body, "description")
    && ToEntity(s[id]).completed == Bool(false)
  }

  /** The `i`th postable post is stored, with its title and description,
      under the id assigned to it. */
  lemma {:induction false} CreateEachStoresBody(store: Store, bodies: seq<Controller.Body>, envs: seq<Env>, i: nat)
    requires |bodies| == |envs| && Postable(store.Keys, bodies, envs) && i < |bodies|
    ensures HoldsPost(CreateEach(store, bodies, envs).store, envs[i].freshId, bodies[i])
    decreases i
  {
    var h := Controller.CreateTodo(store, bodies[0], envs[0]);
    assert h.store.Keys == store.Keys + {envs[0].freshId};
    if i == 0 {
      assert HoldsPost(h.store, envs[0].freshId, bodies[0]);
      CreateEachKeepsRecords(h.store, bodies[1..], envs[1..]);
    } else {
      CreateEachStoresBody(h.store, bodies[1..], envs[1..], i - 1);
      assert bodies[1..][i - 1] == bodies[i] && envs[1..][i - 1] == envs[i];
    }
  }

  /** Every postable post is stored with its title and description. */
  lemma CreateEachStoresBodies(store: Store, bodies: seq<Controller.Body>, envs: seq<Env>)
    requires |bodies| == |envs| && Postable(store.Keys, bodies, envs)
    ensures forall i :: 0 <= i < |bodies| ==>
              HoldsPost(CreateEach(store, bodies, envs).store, envs[i].freshId, bodies[i])
  {
    forall i | 0 <= i < |bodies|
      ensures HoldsPost(CreateEach(store, bodies, envs).store, envs[i].freshId, bodies[i])
    {
      CreateEachStoresBody(store, bodies, envs, i);
    }
  }

  /** After N postable posts the store holds exactly N more records. */
  lemma NPostsGiveNRecords(store: Store, bodies: seq<Controller.Body>, envs: seq<Env>)
    requires |bodies| == |envs| && Postable(store.Keys, bodies, envs)
    ensures |CreateEach(store, bodies, envs).store| == |store| + |bodies|
  {
    CreateEachAllAnswer201(store, bodies, envs);
    CreateEachGrowsByCreated(store, bodies, envs);
  }

  /** Delete an existing todo, then list: 200 both times, one record fewer,
      and the deleted id is not listed. */
  method DeleteThenList(store: Store, id: Id, env1: Env, env2: Env)
    returns (deleted: Controller.Response, listed: Controller.Response)
    requires id != "" && id in store && Healthy(env1) && env2.lookup.None?
    ensures deleted == Controller.Response(200, Controller.Message(Controller.TaskDeleted))
    ensures listed.status == 200 && listed.payload.Many?
    ensures |listed.payload.todos| == |store| - 1
    ensures forall i :: 0 <= i < |listed.payload.todos| ==> listed.payload.todos[i].id != id
  {
    var h := Controller.DeleteTodo(store, id, env1);
    deleted := h.response;
    listed := Controller.GetAllTodos(h.store, env2);
  }

  /** Create, then list: the new todo is among the listed ones. */
  method CreateThenList(store: Store, body: Controller.Body, env1: Env, env2: Env)
    returns (created: Controller.Response, listed: Controller.Response)
    requires Truthy(Controller.Field(body, "title")) && env1.write.None? && env1.freshId !in store
    requires env2.lookup.None?
    ensures created.status == 201 && created.payload.One?
    ensures listed.status == 200 && listed.payload.Many?
    ensures |listed.payload.todos| == |store| + 1
    ensures exists i :: 0 <= i < |listed.payload.todos| && listed.payload.todos[i] == created.payload.todo
  {
    var h := Controller.CreateTodo(store, body, env1);
    created := h.response;
    listed := Controller.GetAllTodos(h.store, env2);
    var t := created.payload.todo;
    assert t.id in h.store;
    var i :| 0 <= i < |listed.payload.todos| && listed.payload.todos[i].id == t.id;
    assert listed.payload.todos[i] == t;
  }
}
