/** The gateway (ApiGatewayController.java). Each handler sends one request
    to the store and translates what comes back. The outbound call itself is
    not modelled: its result is an `Outcome` value, so every handler is a
    total function of that outcome. The only configuration is the store's
    base URL, fixed at construction, so no handler depends on anything else. */
module Gateway {
  import opened Options
  import opened Books
  import opened Http
  import Decimal

  /** What the outbound call ends in. `Answered`: the store's response came
      back (RestTemplate's default error handler lets through every status
      that is not 4xx or 5xx). `ClientError`: an HttpClientErrorException,
      that is a 4xx, with the response body as text. `Failed`: any other
      exception, a transport error or an upstream 5xx alike, with its
      message, which may be null. */
  datatype Outcome =
    | Answered(status: int, body: Body)
    | ClientError(status: int, text: string)
    | Failed(message: Option<string>)

  /** The outcomes the call can actually produce. */
  predicate WellFormed(o: Outcome) {
    match o
    case Answered(s, _) => !(400 <= s < 600)
    case ClientError(s, _) => 400 <= s < 500
    case Failed(_) => true
  }

  /** The five operations a caller can ask of the gateway. */
  datatype Operation =
    | CreateBook(book: Book)
    | GetAllBooks
    | GetBookById(id: int)
    | UpdateBook(id: int, book: Book)
    | DeleteBook(id: int)
  {
    /** The three operations that address one book by id. */
    predicate ById() {
      GetBookById? || UpdateBook? || DeleteBook?
    }
  }

  datatype Verb = Post | Get | Put | Delete

  /** The request the gateway sends to the store. */
  datatype Outbound = Outbound(verb: Verb, url: string, payload: Body)

  /** Reads the id back out of a by-id URL built on `base`. */
  function IdInUrl(base: string, url: string): Option<int> {
    if |base| < |url| && url[..|base|] == base && url[|base|] == '/'
    then Decimal.ParseDecimal(url[|base| + 1..])
    else None
  }

  /** `coreServiceUrl + "/" + id`: the store's address of one book, from
      which the id can be read back. */
  function ByIdUrl(base: string, id: int): (url: string)
    ensures IdInUrl(base, url) == Some(id)
  {
    var url := base + "/" + Decimal.IntToString(id);
    assert url[..|base|] == base && url[|base| + 1..] == Decimal.IntToString(id);
    Decimal.ParseDecimalOfIntToString(id);
    url
  }

  /** The outbound request of each operation: create and list go to the
      base URL itself, the by-id operations to the URL naming their id; only
      create and update carry a book. Create posts, update puts, delete
      deletes, and the two reads get. */
  function RequestFor(base: string, op: Operation): (req: Outbound)
    ensures req.verb == (if op.CreateBook? then Post else if op.UpdateBook? then Put
                         else if op.DeleteBook? then Delete else Get)
    ensures !op.ById() ==> req.url == base
    ensures op.ById() ==> IdInUrl(base, req.url) == Some(op.id)
    ensures req.payload != Empty <==> op.CreateBook? || op.UpdateBook?
    ensures op.CreateBook? || op.UpdateBook? ==> req.payload == One(op.book)
  {
    match op
    case CreateBook(b) => Outbound(Post, base, One(b))
    case GetAllBooks => Outbound(Get, base, Empty)
    case GetBookById(id) => Outbound(Get, ByIdUrl(base, id), Empty)
    case UpdateBook(id, b) => Outbound(Put, ByIdUrl(base, id), One(b))
    case DeleteBook(id) => Outbound(Delete, ByIdUrl(base, id), Empty)
  }

  /** The status every handler answers with: the store's own, or 500 when
      the call failed outright. */
  function StatusOf(o: Outcome): int {
    match o
    case Answered(s, _) => s
    case ClientError(s, _) => s
    case Failed(_) => INTERNAL_SERVER_ERROR
  }

  /** The gateway never originates a book or a list of books; any it
      returns is the one the store sent. */
  predicate OnlyRelaysBooks(o: Outcome, r: Response) {
    (r.body.One? || r.body.Many?) ==> o.Answered? && r.body == o.body
  }

  const CreateFailure := "Ошибка шлюза во время создания: "
  const GetAllFailure := "Ошибка шлюза при получении всех книг: "
  const GetByIdFailure := "Ошибка шлюза при получении книги по ID: "
  const UpdateFailure := "Ошибка шлюза во время обновления: "
  const DeleteFailure := "Ошибка шлюза во время удаления: "

  /** `createBook`'s translation. */
  function CreateReply(o: Outcome): (r: Response)
    ensures r.status == StatusOf(o) && OnlyRelaysBooks(o, r)
  {
    match o
    case Answered(s, b) => Response(s, b)
    case ClientError(s, t) => Response(s, Text(t))
    case Failed(m) => Response(INTERNAL_SERVER_ERROR, Text(CreateFailure + Shown(m)))
  }

  /** `getAllBooks`'s translation. */
  function GetAllReply(o: Outcome): (r: Response)
    ensures r.status == StatusOf(o) && OnlyRelaysBooks(o, r)
  {
    match o
    case Answered(s, b) => Response(s, b)
    case ClientError(s, t) => Response(s, Text(t))
    case Failed(m) => Response(INTERNAL_SERVER_ERROR, Text(GetAllFailure + Shown(m)))
  }

  /** `getBookById`'s translation. */
  function GetByIdReply(o: Outcome): (r: Response)
    ensures r.status == StatusOf(o) && OnlyRelaysBooks(o, r)
  {
    match o
    case Answered(s, b) => Response(s, b)
    case ClientError(s, t) => if s == NOT_FOUND then Response(NOT_FOUND, Empty) else Response(s, Text(t))
    case Failed(m) => Response(INTERNAL_SERVER_ERROR, Text(GetByIdFailure + Shown(m)))
  }

  /** `updateBook`'s translation. */
  function UpdateReply(o: Outcome): (r: Response)
    ensures r.status == StatusOf(o) && OnlyRelaysBooks(o, r)
  {
    match o
    case Answered(s, b) => Response(s, b)
    case ClientError(s, t) => if s == NOT_FOUND then Response(NOT_FOUND, Empty) else Response(s, Text(t))
    case Failed(m) => Response(INTERNAL_SERVER_ERROR, Text(UpdateFailure + Shown(m)))
  }

  /** `deleteBook`'s translation: a success keeps only the status. */
  function DeleteReply(o: Outcome): (r: Response)
    ensures r.status == StatusOf(o) && OnlyRelaysBooks(o, r)
    ensures r.body == Empty || r.body.Text?
  {
    match o
    case Answered(s, _) => Response(s, Empty)
    case ClientError(s, t) => if s == NOT_FOUND then Response(NOT_FOUND, Empty) else Response(s, Text(t))
    case Failed(m) => Response(INTERNAL_SERVER_ERROR, Text(DeleteFailure + Shown(m)))
  }

  /** The handler of each operation. */
  function Reply(op: Operation, o: Outcome): (r: Response)
    ensures r.status == StatusOf(o) && OnlyRelaysBooks(o, r)
  {
    match op
    case CreateBook(_) => CreateReply(o)
    case GetAllBooks => GetAllReply(o)
    case GetBookById(_) => GetByIdReply(o)
    case UpdateBook(_, _) => UpdateReply(o)
    case DeleteBook(_) => DeleteReply(o)
  }

  /** The prefix of the message a failed call of each operation yields. */
  function FailurePrefix(op: Operation): string {
    match op
    case CreateBook(_) => CreateFailure
    case GetAllBooks => GetAllFailure
    case GetBookById(_) => GetByIdFailure
    case UpdateBook(_, _) => UpdateFailure
    case DeleteBook(_) => DeleteFailure
  }

  /** One request to the store, whose answer `upstream` gives, translated:
      the answer depends on nothing but the base URL, the operation and
      what the store said. */
  function Forward(base: string, op: Operation, upstream: Outbound -> Outcome): (r: Response)
    ensures r.status == StatusOf(upstream(RequestFor(base, op)))
    ensures OnlyRelaysBooks(upstream(RequestFor(base, op)), r)
  {
    Reply(op, upstream(RequestFor(base, op)))
  }

  /** The gateway holds no mutable state: two upstreams that answer the
      operation's request alike give the same answer, whatever they do with
      any other request. */
  lemma ForwardDependsOnlyOnRequest(base: string, op: Operation, u1: Outbound -> Outcome, u2: Outbound -> Outcome)
    requires u1(RequestFor(base, op)) == u2(RequestFor(base, op))
    ensures Forward(base, op, u1) == Forward(base, op, u2)
  {
  }

  /** A success is relayed as it came, status and body; delete relays the
      status alone. */
  lemma SuccessRelayed(op: Operation, s: int, b: Body)
    ensures Reply(op, Answered(s, b)) == Response(s, if op.DeleteBook? then Empty else b)
  {
  }

  /** Create and list forward every 4xx with the store's body, 404 included. */
  lemma CollectionErrorsForwarded(op: Operation, s: int, t: string)
    requires op.CreateBook? || op.GetAllBooks?
    ensures Reply(op, ClientError(s, t)) == Response(s, Text(t))
  {
  }

  /** The by-id operations turn a 404 into a bare 404, whatever body the
      store sent, and forward any other 4xx with its body. */
  lemma ByIdNotFoundNormalized(op: Operation, s: int, t: string)
    requires op.ById()
    ensures Reply(op, ClientError(s, t)) == if s == NOT_FOUND then Response(NOT_FOUND, Empty) else Response(s, Text(t))
  {
  }

  /** A failed call yields 500 with the operation's prefix and the message. */
  lemma FailureReported(op: Operation, m: Option<string>)
    ensures Reply(op, Failed(m)) == Response(INTERNAL_SERVER_ERROR, Text(FailurePrefix(op) + Shown(m)))
  {
  }

  /** For outcomes the call can produce, the gateway answers 500 exactly when
      the call failed, so a caller tells a store error from a failed call. */
  lemma ServerErrorIffFailed(op: Operation, o: Outcome)
    requires WellFormed(o)
    ensures Reply(op, o).status == INTERNAL_SERVER_ERROR <==> o.Failed?
  {
  }

  /** Which operation a failure message belongs to. Every prefix starts with
      "Ошибка шлюза " (13 characters); the next word is "во" or "при", and
      the word after "во время " (index 22) or "при получении " (index 27)
      tells the operations apart. */
  function ReadFailurePrefix(text: string): string {
    if |text| <= 27 then ""
    else if text[13] == 'п' then (if text[27] == 'в' then GetAllFailure else GetByIdFailure)
    else if text[22] == 'с' then CreateFailure
    else if text[22] == 'о' then UpdateFailure
    else DeleteFailure
  }

  /** The operation can be read back from the message a failed call yields. */
  lemma ReadFailurePrefixOf(op: Operation, message: string)
    ensures ReadFailurePrefix(FailurePrefix(op) + message) == FailurePrefix(op)
  {
  }

  /** Whether two operations go to the same handler, whatever their ids
      and books. */
  predicate SameHandler(op1: Operation, op2: Operation) {
    || (op1.CreateBook? && op2.CreateBook?)
    || (op1.GetAllBooks? && op2.GetAllBooks?)
    || (op1.GetBookById? && op2.GetBookById?)
    || (op1.UpdateBook? && op2.UpdateBook?)
    || (op1.DeleteBook? && op2.DeleteBook?)
  }

  /** Each of the five handlers has its own failure prefix: two operations
      share a prefix exactly when they go to the same handler. */
  lemma PrefixNamesHandler(op1: Operation, op2: Operation)
    ensures FailurePrefix(op1) == FailurePrefix(op2) <==> SameHandler(op1, op2)
  {
    if !SameHandler(op1, op2) {
      ReadFailurePrefixOf(op1, "");
      ReadFailurePrefixOf(op2, "");
      assert FailurePrefix(op1) + "" == FailurePrefix(op1);
      assert FailurePrefix(op2) + "" == FailurePrefix(op2);
    }
  }

  /** No handler's failure prefix begins another handler's, so the prefix of
      a failure body is never ambiguous. */
  lemma PrefixFree(op1: Operation, op2: Operation)
    requires !SameHandler(op1, op2)
    ensures !(FailurePrefix(op1) <= FailurePrefix(op2))
  {
    var p1, p2 := FailurePrefix(op1), FailurePrefix(op2);
    PrefixNamesHandler(op1, op2);
    if p1 <= p2 {
      var rest := p2[|p1|..];
      assert p2 == p1 + rest && p2 == p2 + "";
      ReadFailurePrefixOf(op1, rest);
      ReadFailurePrefixOf(op2, "");
    }
  }

  /** Two failures read alike only when they come from the same handler with
      the same printed message, so the message names the handler. */
  lemma FailureNamesOperation(op1: Operation, op2: Operation, m1: Option<string>, m2: Option<string>)
    requires Reply(op1, Failed(m1)) == Reply(op2, Failed(m2))
    ensures SameHandler(op1, op2) && Shown(m1) == Shown(m2)
  {
    var p1, p2 := FailurePrefix(op1), FailurePrefix(op2);
    FailureReported(op1, m1);
    FailureReported(op2, m2);
    var text := p1 + Shown(m1);
    assert text == p2 + Shown(m2);
    ReadFailurePrefixOf(op1, Shown(m1));
    ReadFailurePrefixOf(op2, Shown(m2));
    assert text[|p1|..] == Shown(m1) && text[|p2|..] == Shown(m2);
    PrefixNamesHandler(op1, op2);
  }

  /** The store's answers as the gateway's upstream call sees them: a 4xx
      raises HttpClientErrorException with the store's (empty) error body,
      anything else comes back as an answer. The store never answers 5xx. */
  function Transmit(r: Response): Outcome {
    if 400 <= r.status < 500 then ClientError(r.status, "") else Answered(r.status, r.body)
  }

  /** The responses BookController gives to each operation. */
  predicate StoreAnswer(op: Operation, r: Response) {
    match op
    case CreateBook(_) => r.status == CREATED && r.body.One?
    case GetAllBooks => r.status == OK && r.body.Many?
    case GetBookById(_) => (r.status == OK && r.body.One?) || r == Response(NOT_FOUND, Empty)
    case UpdateBook(_, _) => (r.status == OK && r.body.One?) || r == Response(NOT_FOUND, Empty)
    case DeleteBook(_) => r == Response(NO_CONTENT, Empty) || r == Response(NOT_FOUND, Empty)
  }

  /** Through the gateway a caller sees exactly what the store answered:
      the same status and the same body, not-found included. */
  lemma GatewayIsTransparent(op: Operation, r: Response)
    requires StoreAnswer(op, r)
    ensures Reply(op, Transmit(r)) == r
  {
  }

  /** When the store answers the request the gateway builds with `r`, the
      caller of the gateway receives exactly `r`. */
  lemma ForwardRelaysStore(base: string, op: Operation, upstream: Outbound -> Outcome, r: Response)
    requires StoreAnswer(op, r) && upstream(RequestFor(base, op)) == Transmit(r)
    ensures Forward(base, op, upstream) == r
  {
    GatewayIsTransparent(op, r);
  }
}
