# Create-todo handler, modelled in Dafny

This project models the request handler behind `POST /todos` of a small todo
service. The service runs on AWS Lambda behind API Gateway and stores items
in a DynamoDB table. The handler:

1. parses the request body, `event.body || "{}"`, with JSON.parse;
2. refuses the request with 400 when `id` or `description` is falsy or
   `isCompleted` is not of type boolean;
3. otherwise sends one PutItem command to the table named by `TABLE_NAME`
   (`""` when unset), with the item `{ id: {S}, task: {S}, isCompleted: {BOOL} }`;
4. answers 201 `{ message: "Task created" }` when the write succeeds, and 500
   `{ error }` when it throws. The error is the thrown Error's message, or
   "An unknown error occurred" when the thrown value is not an Error.

Files:

- `js_values.dfy`, module `JsValues`: values as JSON.parse yields them, plus
  `undefined`. It also defines JavaScript truthiness (an independent list of
  the falsy values), `typeof`, property reads (a TypeError on `null`) and `||`
  on a string that may be undefined.
- `add_todo_handler.dfy`, module `AddTodoHandler`: the handler as the pure
  function `Handle`, built from one function per step of the source. Its
  contract states the outcome against `AcceptedBody`, a reference definition
  of an acceptable body written directly on the object's fields.
- `add_todo_properties.dfy`, module `AddTodoProperties`: lemmas relating
  several calls or particular requests.

Everything the handler calls but does not define is a parameter of `Handle`:

- `parse` stands for JSON.parse: it returns a value or a SyntaxError.
- `send` stands for the DynamoDB client's `send` of the PutItem command. It
  returns success, an Error with a message, or a thrown non-Error value.
- `tableEnv` stands for `process.env.TABLE_NAME`.

The outcome is either a response together with the command sent, if one was
sent, or a rejection by an exception the handler does not catch.

Where the documented behaviour of the service and the code differ, the model
follows the code:

- The documented contract says `id` must be a string. The code only checks
  truthiness, so a number, an array or an object passes (`NonStringIdAccepted`,
  `NonStringFieldsAccepted`).
- The documented contract says every failure becomes a structured response.
  The code calls JSON.parse before its `try`, so a body that is not JSON
  escapes as a SyntaxError. The body `null` escapes as a TypeError when `id`
  is read from it (`UnparsableOrNullBodyUncaught`).

## Model

| member | source | states |
|---|---|---|
| JsValues.Truthy | src/handlers/add-todo-handler.ts:12 | a value is truthy exactly when it is not undefined, null, false, 0 or "" |
| JsValues.TypeOf | src/handlers/add-todo-handler.ts:12 | `typeof` is "boolean" exactly for booleans and "object" exactly for null, arrays and objects |
| JsValues.GetProperty | src/handlers/add-todo-handler.ts:12 | reading a field throws exactly on null, yields the own field of an object when present, and yields undefined otherwise |
| JsValues.StringOr | src/handlers/add-todo-handler.ts:9 | `x \|\| fallback` is x when x is a non-empty string and the fallback otherwise |
| AddTodoHandler.RequestText | src/handlers/add-todo-handler.ts:9 | the text given to JSON.parse is never empty; it is "{}" exactly when the body is missing, empty or "{}" |
| AddTodoHandler.TableName | src/handlers/add-todo-handler.ts:5 | the table name is the environment value, and "" exactly when that is unset or empty |
| AddTodoHandler.Invalid | src/handlers/add-todo-handler.ts:12 | a request passes exactly when id and description are not falsy and isCompleted is a boolean |
| AddTodoHandler.PutTodoParams | src/handlers/add-todo-handler.ts:22-29 | the command targets the given table with exactly the attributes id, task (from description) and isCompleted (BOOL) |
| AddTodoHandler.ErrorMessage | src/handlers/add-todo-handler.ts:40-41 | an Error yields its own message, any other thrown value the generic unknown-error message |
| AddTodoHandler.Respond | src/handlers/add-todo-handler.ts:31-46 | status 201 with "Task created" exactly when the write succeeded, otherwise 500 with the normalised message |
| AddTodoHandler.Handle | src/handlers/add-todo-handler.ts:7-47 | a parse error or a null body rejects; otherwise status is 400, 201 or 500, 400 exactly when the body is not acceptable, with no command sent; an acceptable body sends exactly the expected command and the response follows its outcome |
| AddTodoProperties.MissingBodyRefused | src/handlers/add-todo-handler.ts:9-18 | a missing or empty body gives 400 with the validation message and no write |
| AddTodoProperties.ValidationMatchesAcceptedBody | src/handlers/add-todo-handler.ts:12 | for any non-null body, the source's condition on the three reads refuses exactly the bodies that are not acceptable |
| AddTodoProperties.IsCompletedCheckedByType | src/handlers/add-todo-handler.ts:12-18 | with truthy id and description, the response is 400 exactly when isCompleted is not a boolean |
| AddTodoProperties.IsCompletedNotTruthiness | src/handlers/add-todo-handler.ts:12 | some falsy isCompleted is accepted and some truthy isCompleted is refused |
| AddTodoProperties.IsCompletedExamples | src/handlers/add-todo-handler.ts:12 | isCompleted false is accepted; "true", 1 and null are refused |
| AddTodoProperties.NonStringIdAccepted | src/handlers/add-todo-handler.ts:12 | some id that is not a string passes validation |
| AddTodoProperties.NonStringFieldsAccepted | src/handlers/add-todo-handler.ts:12-29 | any non-zero number as id and any array as description pass, and the id is written as it came |
| AddTodoProperties.OtherFieldsIgnored | src/handlers/add-todo-handler.ts:12-29 | two object bodies that agree on the three fields give the same outcome |
| AddTodoProperties.RefusalIgnoresStore | src/handlers/add-todo-handler.ts:12-33 | a refused or rejected request has the same outcome whatever the store would do, so no write is issued |
| AddTodoProperties.StoreOutcomeDecidesResponse | src/handlers/add-todo-handler.ts:31-46 | for an acceptable body: success gives 201 "Task created", an Error gives 500 with its message, a non-Error gives 500 with the generic message |
| AddTodoProperties.UnparsableOrNullBodyUncaught | src/handlers/add-todo-handler.ts:9-12 | a body JSON.parse refuses escapes as a SyntaxError, and the body null escapes as a TypeError |
| AddTodoProperties.CreateExample | src/handlers/add-todo-handler.ts:22-38 | `{id:"1", description:"buy milk", isCompleted:false}` is written as `{id:"1", task:"buy milk", isCompleted:false}` and answers 201 |

## Left out

- The list handler (src/handlers/list-todos-handler.ts) is not modelled. It is a Scan call and `unmarshall`, both library code. Its error normalisation is the same as `ErrorMessage`.
- The CDK stack (lib/test-cdk-stack.ts) and the build configuration (esbuild.config.js) are not modelled. They declare infrastructure and bundling and have no runtime behaviour.
- DynamoDB's PutItem semantics are not modelled: overwriting on a duplicate `id`, type checks on attribute values, and failures when the table name is empty. The store is the `send` parameter, and its result is taken as given.
- JSON.parse and JSON.stringify internals are not modelled. JSON.parse is the `parse` parameter, and response bodies are structured payloads, not serialised text.
- Numbers are reals, not IEEE doubles. A number holds the value JSON.parse produced after rounding, so an underflow to 0 must already show as 0.
- The async/await structure, the module-level DynamoDB client, concurrent invocations and reading `process.env` are not modelled. The environment value is the `tableEnv` parameter.
- JsValues.GetProperty: defined only for the three names the handler reads. Those names are not inherited from a prototype, so reading them from a non-object gives undefined.
- AddTodoHandler.Handle: reads all three fields before it tests them, instead of stopping at the first falsy one the way `||` does. Reads on a non-null value have no effect and cannot throw, so the outcome is the same.
