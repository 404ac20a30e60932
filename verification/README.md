# Todo service core, modelled in Dafny

This project models the request path of a small todo CRUD service:
HTTP controller → domain use case → Mongoose repository → a collection of
todo documents. Each request is one atomic step on the store, written as a pure
function `(store, input) -> (store', result)`. The two exceptions are the
listing operations, which are methods because the store's natural order is
left open.

- `outcomes.dfy` (`Outcomes`): `Option`, `Result` (a value or a thrown `Error`
  with its message), and `Rewrap`, the `catch` block that replaces any message
  with a fixed one.
- `js_values.dfy` (`JsValues`): the JSON values a request body can carry,
  `undefined` for a missing key, JavaScript truthiness and `||`.
- `todo.dfy` (`TodoEntity`): the `Todo` entity and its constructor with the
  `completed = false` / `createdAt = new Date()` defaults; `TodoData`, the
  plain object the controller builds and the use cases read.
- `repository.dfy` (`Repository`): the store as a map from `_id` to document
  (every document is filed under its own id, enforced by the type), and the
  adapter's `findAll`, `create`, `findById`, `update` and `delete`, with their
  `null`-on-absent and boolean-delete conventions.
- `domain_use_cases.dfy` (`DomainUseCases`): the four wired use cases, with
  their guards, their Spanish error messages, and the catch-all blocks that
  rewrite every inner failure into one message.
- `merge_update.dfy` (`MergeUpdate`): the application-layer update use case
  and its truthiness merge. An explicit `completed: false` cannot clear a
  stored `true` there; this quirk is modelled as written.
- `controller.dfy` (`Controller`): which body keys each handler forwards, and
  the mapping from use-case outcome to status code and JSON body.
- `scenarios.dfy` (`Scenarios`): end-to-end facts over request sequences.

Things the store decides on its own are parameters. Each request gets an
`Env`, which holds:

- the id the store would assign to a new document;
- the creation time;
- whether the lookup call and the writing call throw, and with which message;
- what `findByIdAndUpdate` does with a field whose value is `undefined`:
  keep it or set it to `null`.

Lemmas about updates speak only about the fields a caller supplied, or name
the choice they assume (the description clause of `Scenarios.UpdateAnswers200`
assumes the field is kept), so they hold under both choices.

Behaviours of the code worth noting:

- The update the application actually wires (`src/domain/useCases/todo/UpdateTodoUseCase.js`)
  does not merge. It forwards the three fields verbatim. The truthiness merge
  lives only in the application-layer variant, which is modelled separately.
- `updateTodo` answers 404 for every failure, including the empty-id
  validation error. It never answers 400.
- The domain delete never returns `false`. An absent id throws. So the
  controller's falsy-result branch is unreachable on the live path.
- Store failures are not passed through as they are. Each use case replaces
  the message with its own fixed one.
- `createTodo` drops any `completed` in the body, so a created todo is always
  incomplete.

## Model

| member | source | states |
|---|---|---|
| TodoEntity.NewTodo | src/domain/entities/Todo.js:1-8 | id, title and description are stored as given. `completed` is `false` exactly when the argument is `undefined` or `false`; any other supplied value is kept. `createdAt` is the supplied time, or the construction time when omitted. |
| TodoEntity.NewTodoStable | src/domain/entities/Todo.js:2-7 | Rebuilding an entity from its own fields yields the same entity: defaults fill gaps and never override. |
| JsValues.OrFalseDefault | src/domain/useCases/todo/CreateTodoUseCase.js:16 | The create default, `x` JavaScript-OR `false`, is never `undefined`, and it is `false` exactly when `x` is falsy. |
| Outcomes.Rewrap | src/domain/useCases/todo/CreateTodoUseCase.js:18-20 | A catch-all keeps a success and turns every failure into the one fixed message. |
| Repository.ToEntity | src/infrastructure/database/mongoose/TodoMongooseRepository.js:37-43 | The entity keeps the document's id, title, description and createdAt. Its `completed` is the document's, or `false` when the document lacks it. |
| Repository.FindAll | src/infrastructure/database/mongoose/TodoMongooseRepository.js:6-15 | On success, exactly one entity per stored document, with no repeated id and every id present. An empty store gives `[]`. A driver failure passes its message through. |
| Repository.Create | src/infrastructure/database/mongoose/TodoMongooseRepository.js:17-31 | Succeeds iff the driver succeeds and the assigned id is free. The store then gains exactly that one record and every other record is unchanged. The result has the assigned id and time, the given title and description, and the given `completed`, or `false` when none is given. Any failure leaves the store unchanged. |
| Repository.CreateIgnoresRequestedId | src/infrastructure/database/mongoose/TodoMongooseRepository.js:18-22 | An `_id` key in the creation data has no effect on the outcome. |
| Repository.CreateThenFind | src/infrastructure/database/mongoose/TodoMongooseRepository.js:17-44 | A created record is found again under its new id, equal to what `create` returned. |
| Repository.FindById | src/infrastructure/database/mongoose/TodoMongooseRepository.js:33-44 | Returns `null` exactly when no record has the id; otherwise returns that record's entity. |
| Repository.Overwrite | src/infrastructure/database/mongoose/TodoMongooseRepository.js:47-55 | Every supplied field takes the supplied value. id and createdAt are kept. |
| Repository.Update | src/infrastructure/database/mongoose/TodoMongooseRepository.js:46-66 | An absent id gives `null` and no change. A present id gives the post-update record, with the same id and createdAt, the supplied fields written, the same key set, and all other records unchanged. |
| Repository.UpdateThenFind | src/infrastructure/database/mongoose/TodoMongooseRepository.js:33-66 | Looking the id up after an update yields what the update returned. |
| Repository.Delete | src/infrastructure/database/mongoose/TodoMongooseRepository.js:68-71 | Returns `true` iff the id was present. Afterwards the id is gone and every other record is unchanged. A driver failure changes nothing. |
| Repository.DeleteThenFind | src/infrastructure/database/mongoose/TodoMongooseRepository.js:68-71 | After a delete, `findById` gives `null`, and a second delete returns `false` and changes nothing. |
| DomainUseCases.CreateTodo | src/domain/useCases/todo/CreateTodoUseCase.js:6-21 | A falsy title fails with 'El título es requerido' and the store is unchanged. Any other failure says 'Error al crear el todo' and also leaves the store unchanged. On success: one new record under a previously unused id; title and description as given; `completed` is the caller's value if truthy, else `false`. |
| DomainUseCases.GetAllTodos | src/domain/useCases/todo/GetAllTodosUseCase.js:6-12 | Returns the repository's enumeration of the store, `[]` for an empty store, or 'Error al obtener todos los todos'. It has no store output. |
| DomainUseCases.UpdateAttempt | src/domain/useCases/todo/UpdateTodoUseCase.js:11-21 | Inside the try block, an absent id throws 'Todo no encontrado' and the store is unchanged. |
| DomainUseCases.UpdateTodo | src/domain/useCases/todo/UpdateTodoUseCase.js:6-25 | An empty id fails with 'El ID es requerido', whatever the store does. Succeeds iff the id is non-empty and present and no driver call throws; every other failure says 'Error al actualizar el todo' and leaves the store unchanged. On success the record keeps its id and createdAt, carries each supplied field verbatim, and no other record changes. |
| DomainUseCases.NotFoundIsRewritten | src/domain/useCases/todo/UpdateTodoUseCase.js:12-24 | The inner 'Todo no encontrado' becomes 'Error al actualizar el todo'. |
| DomainUseCases.UpdateClearsCompleted | src/domain/useCases/todo/UpdateTodoUseCase.js:17-21 | There is no merge at this layer: an explicit `completed: false` overwrites a stored `true`. |
| DomainUseCases.DeleteTodo | src/domain/useCases/todo/DeleteTodoUseCase.js:6-22 | An empty id fails with 'El ID es requerido'. The result is never `false`. Succeeds iff the id is non-empty and present and no driver call throws, and then exactly that record is removed. Every other failure says 'Error al eliminar el todo' and removes nothing. |
| DomainUseCases.DeleteTwice | src/domain/useCases/todo/DeleteTodoUseCase.js:12-21 | Deleting an id twice gives `true`, then 'Error al eliminar el todo' with no further change. |
| MergeUpdate.Merge | src/application/useCases/todo/UpdateTodoUseCase.js:11-13 | Title and description are replaced iff the supplied value is truthy, else kept. `completed` is replaced iff the supplied value is truthy. id and createdAt are untouched. |
| MergeUpdate.MergeCannotClearCompleted | src/application/useCases/todo/UpdateTodoUseCase.js:13 | The merged `completed` is truthy iff the stored or the supplied one is, so `false` never clears `true`. |
| MergeUpdate.MergeFalsyPatchIsIdentity | src/application/useCases/todo/UpdateTodoUseCase.js:11-13 | An all-falsy patch leaves the record unchanged. |
| MergeUpdate.MergeIdempotent | src/application/useCases/todo/UpdateTodoUseCase.js:11-13 | Merging a patch twice equals merging it once. |
| MergeUpdate.MergeReplacesIffTruthy | src/application/useCases/todo/UpdateTodoUseCase.js:11-13 | For each field on its own: when the patch value differs from the stored one, the field takes the patch value iff that value is truthy. |
| MergeUpdate.ApplicationUpdate | src/application/useCases/todo/UpdateTodoUseCase.js:4-19 | An absent id fails with 'Tarea no encontrada' and nothing is saved. Driver messages are rethrown verbatim. On success the saved record is the merge and no other record changes. |
| MergeUpdate.ApplicationUpdateIdempotent | src/application/useCases/todo/UpdateTodoUseCase.js:11-15 | Repeating a successful update changes nothing more. |
| Controller.GetAllResponse | src/infrastructure/webApi/controllers/TodoController.js:129-136 | Answers 200 with the list on success, or 500 with `{message}`. |
| Controller.GetAllTodos | src/infrastructure/webApi/controllers/TodoController.js:129-136 | Answers 200 iff the listing succeeds, with one entry per record; an empty store gives 200 `[]`. Otherwise 500 with 'Error al obtener todos los todos'. |
| Controller.CreateData | src/infrastructure/webApi/controllers/TodoController.js:140-143 | Only `title` and `description` are forwarded; `completed` and `id` are `undefined`. |
| Controller.CreateResponse | src/infrastructure/webApi/controllers/TodoController.js:144-148 | Answers 201 with the todo on success, and 400 with `{message}` on any failure. |
| Controller.CreateTodo | src/infrastructure/webApi/controllers/TodoController.js:138-149 | Answers 201 iff the title is truthy, the write succeeds and the id is free. The created todo is then incomplete, carries the body's title and description, and every existing record keeps its value. A missing or falsy title gives 400 'El título es requerido'; any other failure gives 400 'Error al crear el todo'. A 400 leaves the store unchanged. |
| Controller.UpdateData | src/infrastructure/webApi/controllers/TodoController.js:154-158 | Forwards `title`, `description` and `completed` from the body. |
| Controller.UpdateResponse | src/infrastructure/webApi/controllers/TodoController.js:160-167 | Answers 200 iff there is a non-null todo. A null result or any thrown error gives 404; never 400 or 500. |
| Controller.UpdateTodo | src/infrastructure/webApi/controllers/TodoController.js:151-168 | Answers only 200 or 404. 200 iff the id is non-empty and present and no driver call throws. An empty id gives 404 'El ID es requerido'; every other failure gives 404 'Error al actualizar el todo' and leaves the store unchanged. On 200 the supplied fields are written, id and createdAt are kept, and no other record changes. |
| Controller.DeleteResponse | src/infrastructure/webApi/controllers/TodoController.js:173-180 | Answers 200 `{message:'Tarea eliminada'}` iff the result is `true`. A falsy result or any error gives 404. |
| Controller.DeleteTodo | src/infrastructure/webApi/controllers/TodoController.js:170-181 | Answers only 200 or 404. 200 iff the id is non-empty and present and no driver call throws, and then the store shrinks by exactly that record. An empty id gives 404 'El ID es requerido'; every other failure gives 404 'Error al eliminar el todo' and changes nothing. The falsy-result message 'Tarea no encontrada' is never sent. |
| Scenarios.CreateAnswers201 | e2e/index.test.js:40-52 | Posting a title and description answers 201 with those values, `completed` false and a new id, and the todo is stored. |
| Scenarios.CreateIgnoresCompleted | src/infrastructure/webApi/controllers/TodoController.js:140-143 | A body with `completed: true` still creates an incomplete todo. |
| Scenarios.FailedCreateKeepsStore | e2e/index.test.js:54-62 | A post without a title answers 400 'El título es requerido' and leaves the store unchanged. |
| Scenarios.CreateThenDeleteRestores | e2e/index.test.js:122-139 | Deleting the id a create returned answers 200 and restores the original store. |
| Scenarios.DeleteTwiceAnswers200Then404 | src/infrastructure/webApi/controllers/TodoController.js:170-181 | Deleting an existing id answers 200 and removes one record; deleting it again answers 404 and changes nothing. |
| Scenarios.AbsentIdAnswers404 | e2e/index.test.js:110-146 | Updating or deleting an absent id answers 404 with the use case's message and changes nothing, whatever the driver does. |
| Scenarios.UpdateAnswers200 | e2e/index.test.js:89-108 | Updating with a new title and `completed: true` answers 200 with both changed and createdAt kept. When the store keeps absent fields, the description is kept too. |
| Scenarios.CreateEachGrowsByCreated | e2e/index.test.js:72-85 | After a sequence of posts, the store grows by exactly the number of 201 answers. |
| Scenarios.CreateEachAllAnswer201 | e2e/index.test.js:72-85 | Posts that each carry a title, meet no write failure and get an id not yet taken all answer 201. |
| Scenarios.CreateEachAddsFreshIds | e2e/index.test.js:72-85 | Under the same conditions, the store's ids afterwards are the old ids plus exactly the assigned ones. |
| Scenarios.NPostsGiveNRecords | e2e/index.test.js:72-85 | After N such posts the store holds exactly N more records. |
| Scenarios.CreateEachKeepsRecords | e2e/index.test.js:72-85 | Under the same conditions, the posts leave every record that existed before them unchanged. |
| Scenarios.CreateEachStoresBody | e2e/index.test.js:72-85 | Under the same conditions, the `i`th post's assigned id holds a record with the title and description that post was sent with and `completed` false. |
| Scenarios.CreateEachStoresBodies | e2e/index.test.js:72-85 | Under the same conditions, each post's assigned id holds a record with the title and description it was posted with and `completed` false. |
| Scenarios.DeleteThenList | e2e/index.test.js:122-139 | After deleting an existing todo, listing answers 200 with one record fewer, and the deleted id is not listed. |
| Scenarios.CreateThenList | e2e/index.test.js:72-85 | After a successful create, listing answers 200 with one record more, and the created todo is in the list. |

## Left out

- The HTTP framework, CORS, JSON parsing, API documentation and process startup (`src/app.js`). A request is a path id plus a parsed body; a response is a status and a payload. JSON serialization of the entity, such as `createdAt` as a date string, is not modelled.
- The Mongoose schema module `TodoModel` is not part of this model. Stored fields are kept exactly as given, with no casting or required-field validation. The one store default kept is the creation time, which `create` stamps from its `now` parameter. ObjectId syntax is not modelled either; a malformed id that makes the driver throw is one of the lookup faults in `Env`.
- Store-assigned ids, timestamps and driver failures are parameters, not computed. A write that throws is taken to change nothing, relying on document-level atomicity.
- Asynchrony and concurrent requests: each request is one atomic step on the store.
- JavaScript numbers are modelled as reals, so `NaN` cannot be written and `-0` is the same as `0`. `NaN` cannot come from a JSON body; `-0` can, but it is falsy like `0`, so no truthiness test tells them apart.
- The unwired variants: the old HTTP controller, the routes file, the backup app, `MongoTodoRepository`, the abstract repository interface, and the application-layer create, get-all and delete use cases. The application-layer update is modelled over the same store as the rest, because the data module it loads from is not part of this model.
- Repository.Update: what happens to a field passed as `undefined` is a parameter (`AbsentPolicy`), so its contract promises nothing about unsupplied fields.
