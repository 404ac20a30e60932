/** The application-layer update: load the document, merge the patch into it
    field by field with JavaScript `||`, save it. Its `catch` rethrows the
    original message unchanged. */
module MergeUpdate {
  import opened JsValues
  import opened Outcomes
  import opened TodoEntity
  import opened Repository

  /** The message `findById` finding nothing throws in this use case. */
  const MissingOnLoad := "Tarea no encontrada"

  /** `todo.f = todoData.f || todo.f` for title, description and completed. */
  function Merge(d: Document, patch: TodoData): (m: Document)
    ensures m.id == d.id && m.createdAt == d.createdAt
    ensures m.title == (if Truthy(patch.title) then patch.title else d.title)
    ensures m.description == (if Truthy(patch.description) then patch.description else d.description)
    ensures Truthy(patch.completed) ==> m.completed == patch.completed
    ensures !Truthy(patch.completed) ==> m.completed == d.completed
  {
    d.(title := Or(patch.title, d.title),
       description := Or(patch.description, d.description),
       completed := Or(patch.completed, d.completed))
  }

  /** A falsy `completed` in the patch (an explicit `false` included) never
      clears a stored truthy one; the merged flag is truthy iff either is. */
  lemma MergeCannotClearCompleted(d: Document, patch: TodoData)
    ensures Truthy(Merge(d, patch).completed) <==> Truthy(d.completed) || Truthy(patch.completed)
    ensures d.completed == Bool(true) && patch.completed == Bool(false) ==> Merge(d, patch).completed == Bool(true)
  {
  }

  /** A patch whose three fields are all falsy leaves the document as it was. */
  lemma MergeFalsyPatchIsIdentity(d: Document, patch: TodoData)
    requires !Truthy(patch.title) && !Truthy(patch.description) && !Truthy(patch.completed)
    ensures Merge(d, patch) == d
  {
  }

  /** Merging the same patch twice is the same as merging it once. */
  lemma MergeIdempotent(d: Document, patch: TodoData)
    ensures Merge(Merge(d, patch), patch) == Merge(d, patch)
  {
  }

  /** A field whose patch value differs from the stored one is replaced
      exactly when the patch's value is truthy. */
  lemma MergeReplacesIffTruthy(d: Document, patch: TodoData)
    ensures d.title != patch.title ==> (Merge(d, patch).title == patch.title <==> Truthy(patch.title))
    ensures d.description != patch.description ==>
      (Merge(d, patch).description == patch.description <==> Truthy(patch.description))
    ensures d.completed != patch.completed ==>
      (Merge(d, patch).completed == patch.completed <==> Truthy(patch.completed))
  {
  }

  /** The whole use case. `lookup` and `write` say whether `findById` and
      `save` throw; their messages come back verbatim. */
  function ApplicationUpdate(store: Store, id: Id, patch: TodoData, lookup: Fault, write: Fault): (out: Transition<Document>)
    ensures lookup.Some? ==> out == Transition(store, Err(lookup.value))
    ensures lookup.None? && id !in store ==> out == Transition(store, Err(MissingOnLoad))
    ensures lookup.None? && id in store && write.Some? ==> out == Transition(store, Err(write.value))
    ensures out.result.Err? ==> out.store == store
    ensures out.result.Ok? <==> lookup.None? && write.None? && id in store
    ensures out.result.Ok? ==>
      && out.store.Keys == store.Keys
      && out.result.value == out.store[id]
      && out.result.value == Merge(store[id], patch)
      && (forall k :: k in store && k != id ==> out.store[k] == store[k])
  {
    var attempt :=
      if lookup.Some? then Transition(store, Err(lookup.value))
      else if id !in store then Transition(store, Err(MissingOnLoad))
      else if write.Some? then Transition(store, Err(write.value))
      else
        var m := Merge(store[id], patch);
        Transition(store[id := m], Ok(m));
    // `throw new Error(error.message)`: a new error with the same message.
    Transition(attempt.store, match attempt.result
                              case Ok(v) => Ok(v)
                              case Err(msg) => Err(msg))
  }

  /** Applying the same successful update twice gives the same store as once. */
  lemma ApplicationUpdateIdempotent(store: Store, id: Id, patch: TodoData)
    requires id in store
    ensures var once := ApplicationUpdate(store, id, patch, None, None);
            ApplicationUpdate(once.store, id, patch, None, None) == once
  {
  }
}
