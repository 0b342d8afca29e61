/**
 The create-todo request handler (POST /todos). It parses the request body,
 checks three fields, writes one item to the todo table, and maps the outcome
 of that write to an HTTP response.

 Everything outside the handler's own code is a parameter: JSON.parse is
 `parse`, the DynamoDB client's `send` of the PutItem command is `send`, and
 the TABLE_NAME environment variable is `tableEnv`.
 */
module AddTodoHandler {
  import opened JsValues

  const VALIDATION_ERROR := "Missing id, task, or isCompleted field in the request body"
  const CREATED_MESSAGE := "Task created"
  const UNKNOWN_ERROR := "An unknown error occurred"

  /** What JSON.parse does with a text: a value, or a thrown SyntaxError. */
  datatype Parsed = Parsed(value: Json) | SyntaxError

  /** A DynamoDB attribute value as the handler writes it: `{ S: v }` holds
      whatever value the body carried, `{ BOOL: b }` a boolean. */
  datatype AttributeValue = S(s: Json) | BOOL(b: bool)

  /** The parameters of the PutItem command: target table and item. */
  datatype PutParams = PutParams(tableName: string, item: map<string, AttributeValue>)

  /** What a failed `send` throws: an Error instance with its message, or
      any other value. */
  datatype Thrown = ErrorObject(message: string) | NonErrorValue

  datatype SendResult = Sent | Threw(thrown: Thrown)

  /** The response body before JSON.stringify: `{ error }` or `{ message }`. */
  datatype Payload = ErrorPayload(error: string) | MessagePayload(message: string)

  datatype Response = Response(statusCode: int, body: Payload)

  /** An exception the handler does not catch: its promise rejects. */
  datatype Failure = UncaughtSyntaxError | UncaughtTypeError

  /** The handler's outcome: a response together with the PutItem command it
      sent, if it sent one; or a rejection. */
  datatype Outcome =
    | Returned(response: Response, write: Option<PutParams>)
    | Rejected(failure: Failure)

  /** The text handed to JSON.parse, `event.body || "{}"`: a missing or empty
      body becomes the empty object's text, so JSON.parse never sees "". */
  function RequestText(eventBody: Option<string>): (text: string)
    ensures text != ""
    ensures text == "{}" <==> eventBody.None? || eventBody.value in {"", "{}"}
    ensures eventBody.Some? && eventBody.value != "" ==> text == eventBody.value
  {
    StringOr(eventBody, "{}")
  }

  /** The module-level table name, `process.env.TABLE_NAME || ""`. */
  function TableName(tableEnv: Option<string>): (name: string)
    ensures name == "" <==> tableEnv.None? || tableEnv.value == ""
    ensures tableEnv.Some? ==> name == tableEnv.value
  {
    StringOr(tableEnv, "")
  }

  /** The validation condition: the request is refused when `id` or
      `description` is falsy or `isCompleted` is not of type boolean. Only
      `isCompleted` is type-checked; a truthy value of any type passes for
      the other two, and `false` passes for `isCompleted`. */
  predicate Invalid(id: JsValue, description: JsValue, isCompleted: JsValue)
    ensures !Invalid(id, description, isCompleted) <==>
              && id !in Falsy
              && description !in Falsy
              && isCompleted.Defined? && isCompleted.v.JBool?
  {
    !Truthy(id) || !Truthy(description) || TypeOf(isCompleted) != "boolean"
  }

  /** The PutItem parameters: exactly three attributes, `description` stored
      under the name `task`. */
  function PutTodoParams(table: string, id: Json, description: Json, isCompleted: bool): (p: PutParams)
    ensures p.tableName == table
    ensures p.item.Keys == {"id", "task", "isCompleted"}
    ensures p.item["id"] == S(id) && p.item["task"] == S(description)
    ensures p.item["isCompleted"] == BOOL(isCompleted)
  {
    PutParams(table, map["id" := S(id), "task" := S(description), "isCompleted" := BOOL(isCompleted)])
  }

  /** The message reported for a caught exception: an Error's own message,
      otherwise the generic one. */
  function ErrorMessage(thrown: Thrown): (msg: string)
    ensures thrown.ErrorObject? ==> msg == thrown.message
    ensures thrown.NonErrorValue? ==> msg == UNKNOWN_ERROR
  {
    match thrown
    case ErrorObject(m) => m
    case NonErrorValue => UNKNOWN_ERROR
  }

  /** The response once the command was sent: 201 exactly when the write
      succeeded, 500 with the normalised error message otherwise. */
  function Respond(result: SendResult): (resp: Response)
    ensures resp.statusCode == 201 <==> result.Sent?
    ensures resp.statusCode == 201 ==> resp.body == MessagePayload(CREATED_MESSAGE)
    ensures resp.statusCode != 201 ==>
              resp.statusCode == 500 && resp.body == ErrorPayload(ErrorMessage(result.thrown))
  {
    match result
    case Sent => Response(201, MessagePayload(CREATED_MESSAGE))
    case Threw(thrown) => Response(500, ErrorPayload(ErrorMessage(thrown)))
  }

  /** A parsed body that passes validation, stated on the object's own
      fields: an object whose `id` and `description` are present and truthy
      and whose `isCompleted` is a boolean. */
  ghost predicate AcceptedBody(body: Json) {
    && body.JObj?
    && "id" in body.fields && Defined(body.fields["id"]) !in Falsy
    && "description" in body.fields && Defined(body.fields["description"]) !in Falsy
    && "isCompleted" in body.fields && body.fields["isCompleted"].JBool?
  }

  /** The command an accepted body leads to. */
  ghost function ExpectedWrite(table: string, body: Json): PutParams
    requires AcceptedBody(body)
  {
    PutParams(table, map[
      "id" := S(body.fields["id"]),
      "task" := S(body.fields["description"]),
      "isCompleted" := BOOL(body.fields["isCompleted"].b)])
  }

  /** The handler. JSON.parse runs before the `try`, so a SyntaxError
      escapes; so does the TypeError of reading `id` from a `null` body. The
      `||` chain of the validation reads the fields left to right and stops
      early, but reading a field of a non-null value has no effect and cannot
      throw, so reading all three first gives the same result. */
  function Handle(eventBody: Option<string>, parse: string -> Parsed, tableEnv: Option<string>,
                  send: PutParams -> SendResult): (r: Outcome)
    ensures var parsed := parse(RequestText(eventBody));
            && (parsed.SyntaxError? ==> r == Rejected(UncaughtSyntaxError))
            && (parsed == Parsed(JNull) ==> r == Rejected(UncaughtTypeError))
            && (r.Returned? <==> parsed.Parsed? && !parsed.value.JNull?)
    ensures r.Returned? ==> r.response.statusCode in {400, 201, 500}
    ensures r.Returned? ==>
              var body := parse(RequestText(eventBody)).value;
              && (r.response.statusCode == 400 <==> !AcceptedBody(body))
              && (r.response.statusCode == 400 ==>
                    r.response.body == ErrorPayload(VALIDATION_ERROR) && r.write.None?)
              && (AcceptedBody(body) ==>
                    && r.write == Some(ExpectedWrite(TableName(tableEnv), body))
                    && r.response == Respond(send(r.write.value)))
  {
    match parse(RequestText(eventBody))
    case SyntaxError => Rejected(UncaughtSyntaxError)
    case Parsed(body) =>
      match GetProperty(body, "id")
      case ThrewTypeError => Rejected(UncaughtTypeError)
      case Got(id) =>
        var description := GetProperty(body, "description").value;
        var isCompleted := GetProperty(body, "isCompleted").value;
        if Invalid(id, description, isCompleted) then
          Returned(Response(400, ErrorPayload(VALIDATION_ERROR)), None)
        else
          var params := PutTodoParams(TableName(tableEnv), id.v, description.v, isCompleted.v.b);
          Returned(Respond(send(params)), Some(params))
  }
}
