/** The `Todo` entity: the five fields every layer passes around. */
module TodoEntity {
  import opened JsValues
  import opened Outcomes

  /** The string form of a store-generated key. */
  type Id = string

  /** A creation timestamp; the clock itself is a parameter. */
  type Time = nat

  /** An instance of the entity class, `_id` included. */
  datatype Todo = Todo(id: Id, title: JsValue, description: JsValue, completed: JsValue, createdAt: Time)

  /** The plain `todoData` object the controller builds and the use cases read.
      A key the object does not have reads as `Undefined`. */
  datatype TodoData = TodoData(id: JsValue, title: JsValue, description: JsValue, completed: JsValue)

  /** The entity constructor. JavaScript default parameters apply when the
      argument is `undefined`: `completed` then becomes `false`, and `createdAt`
      becomes the construction time `now`. */
  function NewTodo(id: Id, title: JsValue, description: JsValue, completed: JsValue,
                   createdAt: Option<Time>, now: Time): (t: Todo)
    ensures t.id == id && t.title == title && t.description == description
    ensures completed != Undefined ==> t.completed == completed
    ensures t.completed == Bool(false) <==> completed in {Undefined, Bool(false)}
    ensures t.completed != Undefined
    ensures createdAt.Some? ==> t.createdAt == createdAt.value
    ensures createdAt.None? ==> t.createdAt == now
  {
    Todo(id, title, description,
         if completed == Undefined then Bool(false) else completed,
         match createdAt
         case Some(at) => at
         case None => now)
  }

  /** Building the entity twice from its own fields changes nothing: the
      defaults only fill gaps, they never override a supplied value. */
  lemma NewTodoStable(id: Id, title: JsValue, description: JsValue, completed: JsValue,
                      createdAt: Option<Time>, now: Time, later: Time)
    ensures var t := NewTodo(id, title, description, completed, createdAt, now);
            NewTodo(t.id, t.title, t.description, t.completed, Some(t.createdAt), later) == t
  {
  }
}
