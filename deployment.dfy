/** The two services together: a caller talks to the gateway, the gateway
    forwards to the store, and the store's answer travels back through the
    gateway's translation. */
module Deployment {
  import opened Options
  import opened Books
  import opened Http
  import Core
  import opened Gateway

  /** How the store's request mappings read a request under its base URL
      `base`: POST and GET on the base URL itself are create (with the body's
      book) and list; GET, PUT and DELETE on `base + "/" + id` are the three
      by-id operations, PUT with the body's book. The mappings without a
      request body ignore any body sent. Anything else is no operation. */
  function Route(base: string, req: Outbound): (routed: Option<Operation>)
    ensures routed.Some? ==> RequestFor(base, routed.value).verb == req.verb
    ensures routed.Some? && routed.value.ById() ==> IdInUrl(base, req.url) == Some(routed.value.id)
    ensures routed.Some? && !routed.value.ById() ==> req.url == base
  {
    match req.verb
    case Post =>
      if req.url == base && req.payload.One? then Some(CreateBook(req.payload.book)) else None
    case Get =>
      if req.url == base then Some(GetAllBooks)
      else (match IdInUrl(base, req.url)
            case Some(id) => Some(GetBookById(id))
            case None => None)
    case Put =>
      (match IdInUrl(base, req.url)
       case Some(id) => if req.payload.One? then Some(UpdateBook(id, req.payload.book)) else None
       case None => None)
    case Delete =>
      (match IdInUrl(base, req.url)
       case Some(id) => Some(DeleteBook(id))
       case None => None)
  }

  /** The store reads back from the request the gateway builds exactly the
      operation the gateway's caller asked for. */
  lemma RouteOfRequestFor(base: string, op: Operation)
    ensures Route(base, RequestFor(base, op)) == Some(op)
  {
  }

  /** One operation sent by the gateway, whose base URL is `base`, as the
      request `RequestFor` builds; the store reads the operation back from
      that request with `Route` and carries it out, and its answer to that
      request travels back through `Forward`. */
  method Through(store: Core.BookController, base: string, op: Operation) returns (direct: Response, r: Response)
    requires store.Valid()
    modifies store
    ensures store.Valid()
    ensures StoreAnswer(op, direct) && r == direct
    ensures !op.CreateBook? ==> store.counter == old(store.counter) && store.issued == old(store.issued)
    ensures op.CreateBook? ==>
              && store.counter == old(store.counter) + 1
              && store.counter !in old(store.issued)
              && store.books == old(store.books)[store.counter := op.book.(id := Some(store.counter))]
              && direct == Response(CREATED, One(op.book.(id := Some(store.counter))))
    ensures op.GetAllBooks? ==>
              && store.books == old(store.books)
              && |direct.body.books| == |store.books|
              && (forall k :: k in store.books ==> store.books[k] in direct.body.books)
              && (forall i :: 0 <= i < |direct.body.books| ==>
                    var b := direct.body.books[i]; b.id.Some? && b.id.value in store.books && store.books[b.id.value] == b)
              && (forall i, j :: 0 <= i < j < |direct.body.books| ==> direct.body.books[i] != direct.body.books[j])
    ensures op.GetBookById? ==>
              && store.books == old(store.books)
              && (direct.status == OK <==> op.id in store.books)
              && (direct.status == OK ==> direct == Response(OK, One(store.books[op.id])))
              && (direct.status != OK ==> direct == Response(NOT_FOUND, Empty))
    ensures op.UpdateBook? && op.id in old(store.books) ==>
              && store.books == old(store.books)[op.id := Core.Revised(old(store.books)[op.id], op.book)]
              && direct == Response(OK, One(store.books[op.id]))
    ensures op.UpdateBook? && op.id !in old(store.books) ==>
              store.books == old(store.books) && direct == Response(NOT_FOUND, Empty)
    ensures op.DeleteBook? ==>
              && store.books == old(store.books) - {op.id}
              && direct == Response(if op.id in old(store.books) then NO_CONTENT else NOT_FOUND, Empty)
  {
    var sent := RequestFor(base, op);
    RouteOfRequestFor(base, op);
    var served := Route(base, sent).value;
    match served {
      case CreateBook(b) => direct := store.CreateBook(b);
      case GetAllBooks => direct := store.GetAllBooks();
      case GetBookById(id) => direct := store.GetBookById(id);
      case UpdateBook(id, b) => direct := store.UpdateBook(id, b);
      case DeleteBook(id) => direct := store.DeleteBook(id);
    }
    // The store answers the one request it was sent; any other request
    // is one it never received.
    var upstream := (req: Outbound) => if req == sent then Transmit(direct) else Failed(None);
    r := Forward(base, op, upstream);
    ForwardRelaysStore(base, op, upstream, direct);
  }

  /** A fresh store behind a gateway configured with the store's URL `base`:
      create "Dune" (201, id 1), list it (200, exactly that book), move its
      year to 1966 (200, id still 1), delete it (204), then read it (404, no
      body). Every step goes through `Through`. */
  method DuneScenario(base: string) returns (created: Response, listed: Response, updated: Response,
                                             deleted: Response, missing: Response)
    ensures created == Response(CREATED, One(Book(Some(1), Some("Dune"), Some("Herbert"), Some("978-0441013593"), 1965)))
    ensures listed == Response(OK, Many([created.body.book]))
    ensures updated == Response(OK, One(created.body.book.(publicationYear := 1966)))
    ensures deleted == Response(NO_CONTENT, Empty)
    ensures missing == Response(NOT_FOUND, Empty)
  {
    var store := new Core.BookController();
    var dune := Book(None, Some("Dune"), Some("Herbert"), Some("978-0441013593"), 1965);
    var stored := dune.(id := Some(1));
    var direct;

    direct, created := Through(store, base, CreateBook(dune));
    assert store.books == map[1 := stored];

    direct, listed := Through(store, base, GetAllBooks);
    assert |listed.body.books| == 1 && stored in listed.body.books;

    var revision := dune.(publicationYear := 1966);
    direct, updated := Through(store, base, UpdateBook(1, revision));

    direct, deleted := Through(store, base, DeleteBook(1));

    direct, missing := Through(store, base, GetBookById(1));
  }
}
