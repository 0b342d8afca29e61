/**
 Properties of the create-todo handler that relate several calls or pin down
 its behaviour on particular requests.
 */
module AddTodoProperties {
  import opened JsValues
  import opened AddTodoHandler

  /** The body `{ id, description, isCompleted }` as JSON.parse yields it. */
  function TodoBody(id: Json, description: Json, isCompleted: Json): (body: Json)
    ensures body.JObj? && body.fields.Keys == HandlerKeys
  {
    JObj(map["id" := id, "description" := description, "isCompleted" := isCompleted])
  }

  /** A missing or empty `event.body` is replaced by "{}", an object without
      fields, so the request is always refused with 400 and nothing is
      written. */
  lemma MissingBodyRefused(eventBody: Option<string>, parse: string -> Parsed,
                           tableEnv: Option<string>, send: PutParams -> SendResult)
    requires eventBody.None? || eventBody.value == ""
    requires parse("{}") == Parsed(JObj(map[]))
    ensures Handle(eventBody, parse, tableEnv, send) ==
            Returned(Response(400, ErrorPayload(VALIDATION_ERROR)), None)
  {
  }

  /** The validation condition as the handler writes it, reading the three
      properties of any non-null body, refuses exactly the bodies that are
      not accepted objects. */
  lemma ValidationMatchesAcceptedBody(body: Json)
    requires !body.JNull?
    ensures GetProperty(body, "id").Got?
    ensures !Invalid(GetProperty(body, "id").value, GetProperty(body, "description").value,
                     GetProperty(body, "isCompleted").value)
            <==> AcceptedBody(body)
  {
  }

  /** With a truthy `id` and `description`, `isCompleted` decides by its
      type alone: the request is refused exactly when it is not a boolean. */
  lemma IsCompletedCheckedByType(text: string, parse: string -> Parsed, tableEnv: Option<string>,
                                 send: PutParams -> SendResult, id: Json, description: Json,
                                 isCompleted: Json)
    requires text != ""
    requires Truthy(Defined(id)) && Truthy(Defined(description))
    requires parse(text) == Parsed(TodoBody(id, description, isCompleted))
    ensures Handle(Some(text), parse, tableEnv, send).Returned?
    ensures Handle(Some(text), parse, tableEnv, send).response.statusCode == 400
            <==> !isCompleted.JBool?
  {
  }

  /** The check on `isCompleted` is not a truthiness check: some falsy value
      is accepted and some truthy value is refused. */
  lemma IsCompletedNotTruthiness()
    ensures exists c: Json :: !Truthy(Defined(c)) && AcceptedBody(TodoBody(JStr("1"), JStr("x"), c))
    ensures exists c: Json :: Truthy(Defined(c)) && !AcceptedBody(TodoBody(JStr("1"), JStr("x"), c))
  {
    assert !Truthy(Defined(JBool(false))) && AcceptedBody(TodoBody(JStr("1"), JStr("x"), JBool(false)));
    assert Truthy(Defined(JStr("true"))) && !AcceptedBody(TodoBody(JStr("1"), JStr("x"), JStr("true")));
  }

  /** `false` is an accepted `isCompleted`; the string "true", the number 1
      and null are refused. */
  lemma IsCompletedExamples(id: Json, description: Json)
    requires Truthy(Defined(id)) && Truthy(Defined(description))
    ensures AcceptedBody(TodoBody(id, description, JBool(false)))
    ensures !AcceptedBody(TodoBody(id, description, JStr("true")))
    ensures !AcceptedBody(TodoBody(id, description, JNum(1.0)))
    ensures !AcceptedBody(TodoBody(id, description, JNull))
  {
  }

  /** Unlike what a typed Todo record suggests, `id` need not be a string:
      some non-string `id` passes validation. */
  lemma NonStringIdAccepted()
    ensures exists id: Json :: !id.JStr? && AcceptedBody(TodoBody(id, JStr("buy milk"), JBool(false)))
  {
    assert AcceptedBody(TodoBody(JNum(1.0), JStr("buy milk"), JBool(false)));
  }

  /** `id` and `description` are checked for truthiness only: any truthy
      value passes, a number or an array included, and is written as the
      `S` attribute as it is. */
  lemma NonStringFieldsAccepted(n: real, elems: seq<Json>, b: bool)
    requires n != 0.0
    ensures AcceptedBody(TodoBody(JNum(n), JArr(elems), JBool(b)))
    ensures ExpectedWrite("todos", TodoBody(JNum(n), JArr(elems), JBool(b))).item["id"] == S(JNum(n))
  {
  }

  /** Only the three fields the handler reads matter: two object bodies that
      agree on `id`, `description` and `isCompleted` lead to the same
      response and the same command, whatever other fields they carry. */
  lemma OtherFieldsIgnored(text1: string, text2: string, parse: string -> Parsed,
                           tableEnv: Option<string>, send: PutParams -> SendResult,
                           fields1: map<string, Json>, fields2: map<string, Json>)
    requires text1 != "" && text2 != ""
    requires parse(text1) == Parsed(JObj(fields1)) && parse(text2) == Parsed(JObj(fields2))
    requires forall k :: k in HandlerKeys ==>
               (k in fields1 <==> k in fields2) && (k in fields1 ==> fields1[k] == fields2[k])
    ensures Handle(Some(text1), parse, tableEnv, send) == Handle(Some(text2), parse, tableEnv, send)
  {
  }

  /** A refused request sends no command: the outcome is the same whatever
      the store would have done. */
  lemma RefusalIgnoresStore(eventBody: Option<string>, parse: string -> Parsed, tableEnv: Option<string>,
                            send1: PutParams -> SendResult, send2: PutParams -> SendResult)
    requires Handle(eventBody, parse, tableEnv, send1).Rejected? ||
             Handle(eventBody, parse, tableEnv, send1).response.statusCode == 400
    ensures Handle(eventBody, parse, tableEnv, send1) == Handle(eventBody, parse, tableEnv, send2)
  {
  }

  /** For an accepted body, the outcome of the one PutItem call decides the
      response: 201 with "Task created" on success, 500 with the Error's
      message on an Error, 500 with the generic message on anything else. */
  lemma StoreOutcomeDecidesResponse(eventBody: Option<string>, parse: string -> Parsed,
                                    tableEnv: Option<string>, send: PutParams -> SendResult)
    requires parse(RequestText(eventBody)).Parsed?
    requires AcceptedBody(parse(RequestText(eventBody)).value)
    ensures var r := Handle(eventBody, parse, tableEnv, send);
            var sent := send(ExpectedWrite(TableName(tableEnv), parse(RequestText(eventBody)).value));
            && r.Returned?
            && (sent == Sent ==> r.response == Response(201, MessagePayload(CREATED_MESSAGE)))
            && (sent == Threw(NonErrorValue) ==> r.response == Response(500, ErrorPayload(UNKNOWN_ERROR)))
            && (forall m :: sent == Threw(ErrorObject(m)) ==> r.response == Response(500, ErrorPayload(m)))
  {
  }

  /** A body that is not JSON escapes the handler as a SyntaxError, and the
      body "null" escapes as a TypeError: neither becomes a 400 or 500. */
  lemma UnparsableOrNullBodyUncaught(text: string, parse: string -> Parsed, tableEnv: Option<string>,
                                     send: PutParams -> SendResult)
    requires text != ""
    ensures parse(text).SyntaxError? ==>
              Handle(Some(text), parse, tableEnv, send) == Rejected(UncaughtSyntaxError)
    ensures parse(text) == Parsed(JNull) ==>
              Handle(Some(text), parse, tableEnv, send) == Rejected(UncaughtTypeError)
  {
  }

  /** The todo `{ id: "1", description: "buy milk", isCompleted: false }`
      is written as the item `{ id: "1", task: "buy milk", isCompleted:
      false }` to the configured table, and a successful write answers 201. */
  lemma CreateExample(text: string, parse: string -> Parsed, tableEnv: Option<string>,
                      send: PutParams -> SendResult)
    requires text != ""
    requires parse(text) == Parsed(TodoBody(JStr("1"), JStr("buy milk"), JBool(false)))
    requires forall p :: send(p) == Sent
    ensures Handle(Some(text), parse, tableEnv, send) ==
            Returned(Response(201, MessagePayload(CREATED_MESSAGE)),
                     Some(PutParams(TableName(tableEnv),
                                    map["id" := S(JStr("1")), "task" := S(JStr("buy milk")),
                                        "isCompleted" := BOOL(false)])))
  {
  }
}
