/**
 * What main does with a throwable raised in its try block (lines 54-66): the first catch
 * clause, in the order written, whose type the throwable is an instance of
 * handles it, and the handler decides which error lines are logged. The
 * server response handler also reports the messages of an attached
 * OperationOutcome, or that none was attached.
 */
module FailureHandling {

  import opened Wrappers
  import opened OutcomeMessages

  /** The types named by main's catch clauses. */
  datatype ExceptionType =
    | InappropriateForServerException
    | ConnectionException
    | InvalidResponseException
    | NonFhirResponseException
    | BaseServerResponseException
    | AnyException

  /** The catch clauses in the order they are written. */
  const CatchOrder: seq<ExceptionType> := [
    InappropriateForServerException,
    ConnectionException,
    InvalidResponseException,
    NonFhirResponseException,
    BaseServerResponseException,
    AnyException
  ]

  /** A throwable raised in the try block: the catch-clause types it is an
      instance of, and the issues of the OperationOutcome that a server
      response exception carries (None when getOperationOutcome() is null).
      The library's subtype hierarchy is not modelled, so any set of types is
      allowed; a Java Error is an instance of none of them. */
  datatype Failure = Failure(instanceOf: set<ExceptionType>, operationOutcome: Option<seq<Issue>>)

  /** Which handler ran; Uncaught when no clause matched and the throwable
      leaves main. */
  datatype Category =
    | InappropriateServer
    | ConnectionFailure
    | InvalidResponse
    | NonFhirResponse
    | ServerError
    | Unexpected
    | Uncaught

  /** The handler that ran and the error lines it logged, in order. */
  datatype Report = Report(category: Category, lines: seq<string>)

  const InappropriateServerLine: string := "Inappropriate FHIR server!"
  const ConnectionFailureLine: string := "Failed to correctly communicate with FHIR server!"
  const InvalidResponseLine: string := "Invalid response!"
  const NonFhirResponseLine: string := "Non FHIR response!"
  const ServerErrorLine: string := "A FHIR error occurred!"
  const UnexpectedLine: string := "Something really bad happened!"
  const MessagesHeader: string := "Here are the error messages from each of the operation outcome issues:"
  const NoOutcomeLine: string := "The FHIR server did not return any operation outcome!"

  /** The category of the handler written for each catch-clause type. */
  function CategoryOf(t: ExceptionType): Category
  {
    match t
    case InappropriateForServerException => InappropriateServer
    case ConnectionException => ConnectionFailure
    case InvalidResponseException => InvalidResponse
    case NonFhirResponseException => NonFhirResponse
    case BaseServerResponseException => ServerError
    case AnyException => Unexpected
  }

  /** The first line each handler logs. */
  function Headline(c: Category): string
    requires c != Uncaught
  {
    match c
    case InappropriateServer => InappropriateServerLine
    case ConnectionFailure => ConnectionFailureLine
    case InvalidResponse => InvalidResponseLine
    case NonFhirResponse => NonFhirResponseLine
    case ServerError => ServerErrorLine
    case Unexpected => UnexpectedLine
  }

  /** Reference rule for first-match: the index of the first clause in
      order whose type the throwable is an instance of, or |order| if none. */
  function FirstClause(instanceOf: set<ExceptionType>, order: seq<ExceptionType>): (k: nat)
    ensures k <= |order|
    ensures k < |order| ==> order[k] in instanceOf
    ensures forall j :: 0 <= j < k ==> order[j] !in instanceOf
    decreases |order|
  {
    if order == [] then 0
    else if order[0] in instanceOf then 0
    else
      var k' := FirstClause(instanceOf, order[1..]);
      assert forall j :: 1 <= j < k' + 1 ==> order[j] == order[1..][j - 1];
      k' + 1
  }

  /** The first-match clause is unique: any index with the first-match
      property is the one FirstClause returns, so each throwable is handled by
      exactly one clause or by none. */
  lemma FirstClauseUnique(instanceOf: set<ExceptionType>, order: seq<ExceptionType>, k: nat)
    requires k <= |order|
    requires k < |order| ==> order[k] in instanceOf
    requires forall j :: 0 <= j < k ==> order[j] !in instanceOf
    ensures k == FirstClause(instanceOf, order)
  {
  }

  /** What the server response handler logs after its headline: the header
      and the messages when the outcome has issues, nothing for an outcome
      without issues, and a notice when no outcome was attached. */
  function OutcomeLines(operationOutcome: Option<seq<Issue>>): (lines: seq<string>)
    ensures operationOutcome.None? ==> lines == [NoOutcomeLine]
    ensures operationOutcome.Some? ==> (lines == [] <==> operationOutcome.value == [])
    ensures operationOutcome.Some? && operationOutcome.value != [] ==>
      |lines| == |operationOutcome.value| + 1 &&
      lines[0] == MessagesHeader && lines[1..] == Extracted(operationOutcome.value)
  {
    match operationOutcome
    case None => [NoOutcomeLine]
    case Some(issues) =>
      var messagesFromOperationOutcome := Extracted(issues);
      ExtractedLength(issues);
      if messagesFromOperationOutcome != [] then [MessagesHeader] + messagesFromOperationOutcome
      else []
  }

  /** The catch clauses of main, tried in the order they are written. */
  function Classify(f: Failure): (r: Report)
    ensures r.category == Uncaught <==> r.lines == []
    ensures r.category != Uncaught ==> r.lines[0] == Headline(r.category)
    ensures r.category != ServerError ==> |r.lines| <= 1
  {
    if InappropriateForServerException in f.instanceOf then
      Report(InappropriateServer, [InappropriateServerLine])
    else if ConnectionException in f.instanceOf then
      Report(ConnectionFailure, [ConnectionFailureLine])
    else if InvalidResponseException in f.instanceOf then
      Report(InvalidResponse, [InvalidResponseLine])
    else if NonFhirResponseException in f.instanceOf then
      Report(NonFhirResponse, [NonFhirResponseLine])
    else if BaseServerResponseException in f.instanceOf then
      Report(ServerError, [ServerErrorLine] + OutcomeLines(f.operationOutcome))
    else if AnyException in f.instanceOf then
      Report(Unexpected, [UnexpectedLine])
    else
      Report(Uncaught, [])
  }

  /** Classification is first-match in source order: the handler that runs
      is the one of the first clause the throwable is an instance of, and
      nothing runs when there is none. */
  lemma ClassifyIsFirstMatch(f: Failure)
    ensures var k := FirstClause(f.instanceOf, CatchOrder);
      Classify(f).category == if k < |CatchOrder| then CategoryOf(CatchOrder[k]) else Uncaught
  {
  }

  /** Every throwable that is an instance of some clause's type is handled;
      only one that is an instance of none (a Java Error) leaves main. */
  lemma UncaughtIffNoClauseMatches(f: Failure)
    ensures Classify(f).category == Uncaught <==>
      forall j :: 0 <= j < |CatchOrder| ==> CatchOrder[j] !in f.instanceOf
  {
    ClassifyIsFirstMatch(f);
    var k := FirstClause(f.instanceOf, CatchOrder);
    if k < |CatchOrder| {
      assert CategoryOf(CatchOrder[k]) != Uncaught;
    }
  }

  /** The attached OperationOutcome matters only in the server response
      handler: any other handler logs the same lines whatever it holds. */
  lemma OutcomeReadOnlyByServerHandler(f: Failure, g: Failure)
    requires f.instanceOf == g.instanceOf
    requires Classify(f).category != ServerError
    ensures Classify(f) == Classify(g)
  {
  }

  /** What the server response handler logs, in terms of the extracted
      messages: its headline, then the header and one line per issue when
      there are issues, nothing more for an empty outcome, and the notice
      when there is no outcome. */
  lemma ServerErrorReport(f: Failure)
    requires Classify(f).category == ServerError
    ensures f.operationOutcome.None? ==> Classify(f).lines == [ServerErrorLine, NoOutcomeLine]
    ensures f.operationOutcome == Some([]) ==> Classify(f).lines == [ServerErrorLine]
    ensures f.operationOutcome.Some? && f.operationOutcome.value != [] ==>
      Classify(f).lines == [ServerErrorLine, MessagesHeader] + Extracted(f.operationOutcome.value)
  {
  }
}
