/**
 * The serverless entry point: it rejects every method but POST, reads the
 * `input` property of the JSON request body, refuses a blank input, and
 * answers an accepted input with the analysis summary. Anything thrown
 * between reading the body and building the answer becomes a server error.
 *
 * The request body is taken as already parsed: the variants of `Body` and
 * `Input` are the cases the handler's code tells apart, and the variants
 * that make the runtime throw carry the runtime's message as an opaque
 * string.
 */
module Handler {
  import opened Whitespace
  import opened Analysis

  /** The value found under `input` in the parsed body. */
  datatype Input =
    | Absent                         // no `input` property (also any non-object JSON value)
    | Text(value: string)            // a string, possibly empty
    | OtherFalsy                     // `null`, `false` or `0`: replaced by the empty string
    | OtherTruthy(trimError: string) // a number, `true`, an array or an object: it has no `trim`

  /** The request body as `JSON.parse` sees it. */
  datatype Body =
    | NoBody                         // missing or empty: the text `{}` is parsed instead
    | Malformed(parseError: string)  // not JSON: the parse throws
    | Null(accessError: string)      // the JSON `null`: reading its `input` throws
    | Parsed(input: Input)           // any other JSON value

  /** The JSON envelope of a response. */
  datatype Payload = ResultEnvelope(result: string) | ErrorEnvelope(error: string)

  datatype Response = Response(statusCode: int, payload: Payload)

  /** A step that either yields a value or throws with a message. */
  datatype Outcome<T> = Returned(value: T) | Threw(message: string)

  const MethodNotAllowed: string := "Method not allowed. Use POST."
  const NoInputProvided: string := "No input provided. Send { input: \"text\" }"
  const InternalErrorPrefix: string := "Internal server error: "

  /** `JSON.parse(event.body || '{}').input`. */
  function ReadInput(body: Body): Outcome<Input> {
    match body
    case NoBody => Returned(Absent)
    case Malformed(m) => Threw(m)
    case Null(m) => Threw(m)
    case Parsed(input) => Returned(input)
  }

  /** `body.input || ''`, together with whether the later `.trim()` call throws. */
  function UserInput(input: Input): Outcome<string> {
    match input
    case Absent => Returned("")
    case Text(s) => Returned(s)
    case OtherFalsy => Returned("")
    case OtherTruthy(m) => Threw(m)
  }

  /** The answer to an exception caught by the handler. */
  function ServerError(message: string): (response: Response)
    ensures response.statusCode == 500 && response.payload.ErrorEnvelope?
    ensures |response.payload.error| >= |InternalErrorPrefix|
    ensures response.payload.error[..|InternalErrorPrefix|] == InternalErrorPrefix
    ensures response.payload.error[|InternalErrorPrefix|..] == message
  {
    Response(500, ErrorEnvelope(InternalErrorPrefix + message))
  }

  /** The response the handler returns for a request. */
  function Respond(httpMethod: string, body: Body): (response: Response)
    ensures response.statusCode in {200, 400, 405, 500}
    ensures response.statusCode == 405 <==> httpMethod != "POST"
    ensures response.payload.ResultEnvelope? <==> response.statusCode == 200
  {
    if httpMethod != "POST" then Response(405, ErrorEnvelope(MethodNotAllowed))
    else match ReadInput(body)
      case Threw(m) => ServerError(m)
      case Returned(input) =>
        match UserInput(input)
        case Threw(m) => ServerError(m)
        case Returned(userInput) =>
          if Trim(userInput) == [] then Response(400, ErrorEnvelope(NoInputProvided))
          else Response(200, ResultEnvelope(Report(userInput)))
  }

  /**
   * The handler, step by step: the method check, the body and its `input`,
   * the blank check, then the analysis record whose summary is returned.
   */
  method Handle(httpMethod: string, body: Body) returns (response: Response)
    ensures response == Respond(httpMethod, body)
  {
    if httpMethod != "POST" {
      return Response(405, ErrorEnvelope(MethodNotAllowed));
    }
    var input := ReadInput(body);
    if input.Threw? {
      return ServerError(input.message);
    }
    var userInput := UserInput(input.value);
    if userInput.Threw? {
      return ServerError(userInput.message);
    }
    if Trim(userInput.value) == [] {
      return Response(400, ErrorEnvelope(NoInputProvided));
    }
    var analysis := Analyze(userInput.value);
    response := Response(200, ResultEnvelope(analysis.summary));
  }

  // ---------------------------------------------------------------- properties

  /** Any other method is refused with the same answer, whatever the body. */
  lemma NonPostRejected(httpMethod: string, body1: Body, body2: Body)
    requires httpMethod != "POST"
    ensures Respond(httpMethod, body1) == Response(405, ErrorEnvelope(MethodNotAllowed))
    ensures Respond(httpMethod, body1) == Respond(httpMethod, body2)
  {
  }

  /** A missing body is answered as the empty object `{}` is. */
  lemma MissingBodyIsEmptyObject(httpMethod: string)
    ensures Respond(httpMethod, NoBody) == Respond(httpMethod, Parsed(Absent))
    ensures httpMethod == "POST" ==> Respond(httpMethod, NoBody) == Response(400, ErrorEnvelope(NoInputProvided))
  {
  }

  /** The body of a POST request yields no usable text: nothing, a falsy value, or whitespace only. */
  predicate NoUsableInput(body: Body) {
    body.NoBody?
    || (body.Parsed? && (body.input.Absent? || body.input.OtherFalsy?
                         || (body.input.Text? && AllSpace(body.input.value))))
  }

  /** The body of a POST request makes the runtime throw. */
  predicate Throws(body: Body) {
    body.Malformed? || body.Null? || (body.Parsed? && body.input.OtherTruthy?)
  }

  /** The message the runtime throws with, for a body that throws. */
  function ThrownMessage(body: Body): string
    requires Throws(body)
  {
    match body
    case Malformed(m) => m
    case Null(m) => m
    case Parsed(input) => input.trimError
  }

  /** A POST request is refused as having no input exactly when its body yields no usable text. */
  lemma BadRequestExactly(httpMethod: string, body: Body)
    ensures Respond(httpMethod, body).statusCode == 400 <==> httpMethod == "POST" && NoUsableInput(body)
    ensures Respond(httpMethod, body).statusCode == 400
        ==> Respond(httpMethod, body).payload == ErrorEnvelope(NoInputProvided)
  {
    if httpMethod == "POST" && body.Parsed? && body.input.Text? {
      assert Trim(body.input.value) == [] <==> AllSpace(body.input.value);
    }
  }

  /** A POST request fails with a server error exactly when its body makes the runtime throw, and the error carries the message. */
  lemma ServerErrorExactly(httpMethod: string, body: Body)
    ensures Respond(httpMethod, body).statusCode == 500 <==> httpMethod == "POST" && Throws(body)
    ensures Respond(httpMethod, body).statusCode == 500
        ==> Respond(httpMethod, body).payload == ErrorEnvelope(InternalErrorPrefix + ThrownMessage(body))
  {
  }

  /** A body that is not JSON is a server error, not a bad request: the parse happens inside the `try`. */
  lemma MalformedBodyIsServerError(parseError: string)
    ensures Respond("POST", Malformed(parseError)).statusCode == 500
    ensures Respond("POST", Malformed(parseError)).payload.error == InternalErrorPrefix + parseError
  {
  }

  /**
   * A request is accepted exactly when it is a POST whose `input` is a string
   * with a non-whitespace character, and the result is the summary of that
   * string and nothing else.
   */
  lemma AcceptedExactly(httpMethod: string, body: Body)
    ensures Respond(httpMethod, body).statusCode == 200
        <==> httpMethod == "POST" && body.Parsed? && body.input.Text? && !AllSpace(body.input.value)
    ensures Respond(httpMethod, body).statusCode == 200
        ==> Respond(httpMethod, body).payload == ResultEnvelope(Report(body.input.value))
  {
    if httpMethod == "POST" && body.Parsed? && body.input.Text? {
      assert Trim(body.input.value) == [] <==> AllSpace(body.input.value);
    }
  }

  /**
   * The answer depends on the body only through `body.input || ''`: a missing
   * body, an absent input, a falsy input and the empty string all get the same
   * answer, and so do any two bodies carrying the same text.
   */
  lemma ResultDependsOnlyOnInput(httpMethod: string, body1: Body, body2: Body)
    requires ReadInput(body1).Returned? && ReadInput(body2).Returned?
    requires UserInput(ReadInput(body1).value) == UserInput(ReadInput(body2).value)
    ensures Respond(httpMethod, body1) == Respond(httpMethod, body2)
  {
  }
}
