/** The Mongoose adapter: the five repository operations over a store of
    documents keyed by `_id`. Each driver call either succeeds or throws; a
    throw is the `Fault` parameter, and a call that throws changes nothing. */
module Repository {
  import opened JsValues
  import opened Outcomes
  import opened TodoEntity

  /** A stored document, as the driver hands it back (`todo._id`, `todo.title`, ...).
      A field the document lacks reads as `Undefined`. */
  datatype Document = Document(id: Id, title: JsValue, description: JsValue, completed: JsValue, createdAt: Time)

  /** The collection: every document is filed under its own `_id`. */
  type Store = s: map<Id, Document> | forall k :: k in s ==> s[k].id == k
    witness map[]

  /** `None` when the driver serves the call; `Some(m)` when it throws `Error(m)`
      (the database is unreachable, the id does not cast to a key, ...). */
  type Fault = Option<string>

  /** What `findByIdAndUpdate` does with a key whose value is `undefined`:
      drop the key and leave the stored field alone, or send it as `null`.
      The adapter does not decide this. */
  datatype AbsentPolicy = KeepAbsent | NullAbsent

  /** A store step: the store afterwards, and what the call returned or threw. */
  datatype Transition<+T> = Transition(store: Store, result: Result<T>)

  /** The prefix of the database's message when a generated `_id` is already
      taken; the full message goes on to name the collection, index and key. */
  const DuplicateKey := "E11000 duplicate key error"

  /** `new Todo(doc._id, doc.title, doc.description, doc.completed, doc.createdAt)`. */
  function ToEntity(d: Document): (t: Todo)
    ensures t.id == d.id && t.title == d.title && t.description == d.description
    ensures t.createdAt == d.createdAt
    ensures d.completed != Undefined ==> t.completed == d.completed
    ensures d.completed == Undefined ==> t.completed == Bool(false)
  {
    // `createdAt` is supplied, so the construction time is never consulted.
    NewTodo(d.id, d.title, d.description, d.completed, Some(d.createdAt), 0)
  }

  /** The entities of every stored document. */
  ghost function Entities(store: Store): set<Todo>
  {
    set k | k in store :: ToEntity(store[k])
  }

  /** `list` holds exactly one entity per stored document, in some order. */
  ghost predicate Enumerates(store: Store, list: seq<Todo>)
  {
    && |list| == |store|
    && (forall i :: 0 <= i < |list| ==> list[i].id in store && list[i] == ToEntity(store[list[i].id]))
    && (forall i, j :: 0 <= i < j < |list| ==> list[i].id != list[j].id)
    && (forall k :: k in store ==> exists i :: 0 <= i < |list| && list[i].id == k)
  }

  /** `findAll`: one entity per document. The store's natural order is not
      specified, so the method picks the documents in an arbitrary order. */
  method FindAll(store: Store, fault: Fault) returns (r: Result<seq<Todo>>)
    ensures fault.Some? ==> r == Err(fault.value)
    ensures fault.None? ==> r.Ok? && Enumerates(store, r.value)
    ensures fault.None? && store == map[] ==> r == Ok([])
  {
    if fault.Some? {
      return Err(fault.value);
    }
    var rest := store.Keys;
    var list: seq<Todo> := [];
    while rest != {}
      invariant rest <= store.Keys
      invariant |list| + |rest| == |store|
      invariant forall i :: 0 <= i < |list| ==>
        list[i].id in store && list[i].id !in rest && list[i] == ToEntity(store[list[i].id])
      invariant forall i, j :: 0 <= i < j < |list| ==> list[i].id != list[j].id
      invariant forall k :: k in store && k !in rest ==> exists i :: 0 <= i < |list| && list[i].id == k
      decreases rest
    {
      var k :| k in rest;
      var list' := list + [ToEntity(store[k])];
      forall j | j in store && j !in rest - {k}
        ensures exists i :: 0 <= i < |list'| && list'[i].id == j
      {
        if j == k {
          assert list'[|list|].id == j;
        } else {
          var i :| 0 <= i < |list| && list[i].id == j;
          assert list'[i].id == j;
        }
      }
      list := list';
      rest := rest - {k};
    }
    return Ok(list);
  }

  /** `create`: a new document from `title`, `description` and `completed` only;
      the store assigns `freshId` and the creation time `now`. */
  function Create(store: Store, data: TodoData, freshId: Id, now: Time, fault: Fault): (out: Transition<Todo>)
    ensures out.result.Ok? <==> fault.None? && freshId !in store
    ensures fault.Some? ==> out.result == Err(fault.value)
    ensures fault.None? && freshId in store ==> out.result == Err(DuplicateKey)
    ensures out.result.Err? ==> out.store == store
    ensures out.result.Ok? ==>
      var t := out.result.value;
      && out.store.Keys == store.Keys + {freshId}
      && |out.store| == |store| + 1
      && (forall k :: k in store ==> out.store[k] == store[k])
      && t == ToEntity(out.store[freshId])
      && t.id == freshId && t.createdAt == now
      && t.title == data.title && t.description == data.description
      && (data.completed != Undefined ==> t.completed == data.completed)
      && (data.completed == Undefined ==> t.completed == Bool(false))
  {
    if fault.Some? then
      Transition(store, Err(fault.value))
    else if freshId in store then
      Transition(store, Err(DuplicateKey))
    else
      var d := Document(freshId, data.title, data.description, data.completed, now);
      Transition(store[freshId := d], Ok(ToEntity(d)))
  }

  /** `findById`: `null` exactly when no document has that id. */
  function FindById(store: Store, id: Id, fault: Fault): (r: Result<Option<Todo>>)
    ensures fault.Some? ==> r == Err(fault.value)
    ensures fault.None? ==> r.Ok?
    ensures r.Ok? ==> (r.value.None? <==> id !in store)
    ensures r.Ok? && r.value.Some? ==> r.value.value == ToEntity(store[id]) && r.value.value.id == id
  {
    if fault.Some? then Err(fault.value)
    else if id !in store then Ok(None)
    else Ok(Some(ToEntity(store[id])))
  }

  /** One field of a `findByIdAndUpdate` payload applied to the stored value. */
  function Assign(supplied: JsValue, stored: JsValue, absent: AbsentPolicy): (v: JsValue)
    ensures supplied != Undefined ==> v == supplied
  {
    if supplied != Undefined then supplied
    else if absent == KeepAbsent then stored
    else Null
  }

  /** The document after `findByIdAndUpdate` with `{title, description, completed}`. */
  function Overwrite(d: Document, data: TodoData, absent: AbsentPolicy): (u: Document)
    ensures u.id == d.id && u.createdAt == d.createdAt
    ensures data.title != Undefined ==> u.title == data.title
    ensures data.description != Undefined ==> u.description == data.description
    ensures data.completed != Undefined ==> u.completed == data.completed
  {
    d.(title := Assign(data.title, d.title, absent),
       description := Assign(data.description, d.description, absent),
       completed := Assign(data.completed, d.completed, absent))
  }

  /** `update`: `null` for an absent id, else the document as it is after the
      update (`{ new: true }`). */
  function Update(store: Store, id: Id, data: TodoData, fault: Fault, absent: AbsentPolicy): (out: Transition<Option<Todo>>)
    ensures fault.Some? ==> out == Transition(store, Err(fault.value))
    ensures fault.None? && id !in store ==> out == Transition(store, Ok(None))
    ensures fault.None? && id in store ==>
      && out.result.Ok? && out.result.value.Some?
      && out.store.Keys == store.Keys
      && (forall k :: k in store && k != id ==> out.store[k] == store[k])
      && out.result.value.value == ToEntity(out.store[id])
      && out.store[id].createdAt == store[id].createdAt
      && (data.title != Undefined ==> out.store[id].title == data.title)
      && (data.description != Undefined ==> out.store[id].description == data.description)
      && (data.completed != Undefined ==> out.store[id].completed == data.completed)
  {
    if fault.Some? then
      Transition(store, Err(fault.value))
    else if id !in store then
      Transition(store, Ok(None))
    else
      var u := Overwrite(store[id], data, absent);
      Transition(store[id := u], Ok(Some(ToEntity(u))))
  }

  /** `delete`: `true` exactly when a document with that id existed and is gone. */
  function Delete(store: Store, id: Id, fault: Fault): (out: Transition<bool>)
    ensures fault.Some? ==> out == Transition(store, Err(fault.value))
    ensures fault.None? ==> out.result == Ok(id in store)
    ensures out.store.Keys == if fault.None? then store.Keys - {id} else store.Keys
    ensures forall k :: k in out.store ==> out.store[k] == store[k]
    ensures fault.None? && id in store ==> |out.store| == |store| - 1
  {
    if fault.Some? then Transition(store, Err(fault.value))
    else Transition(store - {id}, Ok(id in store))
  }

  /** A created document is found again under its new id. */
  lemma CreateThenFind(store: Store, data: TodoData, freshId: Id, now: Time)
    requires freshId !in store
    ensures var out := Create(store, data, freshId, now, None);
            FindById(out.store, freshId, None) == Ok(Some(out.result.value))
  {
  }

  /** The `_id` key a caller puts in the creation data is ignored. */
  lemma CreateIgnoresRequestedId(store: Store, data: TodoData, requested: JsValue, freshId: Id, now: Time, fault: Fault)
    ensures Create(store, data.(id := requested), freshId, now, fault) == Create(store, data, freshId, now, fault)
  {
  }

  /** After an update, looking the id up yields what the update returned. */
  lemma UpdateThenFind(store: Store, id: Id, data: TodoData, absent: AbsentPolicy)
    ensures var out := Update(store, id, data, None, absent);
            FindById(out.store, id, None) == out.result
  {
  }

  /** After a delete the id is gone, and a second delete reports `false`
      and changes nothing. */
  lemma DeleteThenFind(store: Store, id: Id)
    ensures var out := Delete(store, id, None);
            && FindById(out.store, id, None) == Ok(None)
            && Delete(out.store, id, None) == Transition(out.store, Ok(false))
  {
  }
}
