/** The in-memory book store (BookController.java): a map from id to book
    and a counter that mints ids. Each operation is one atomic step. */
module Core {
  import opened Options
  import opened Books
  import opened Http

  /** What `updateBook` makes of the stored book: title, author, isbn and
      year come from the request, and the stored id stays. */
  function Revised(stored: Book, request: Book): (r: Book)
    ensures r == request.(id := stored.id)
  {
    stored.(title := request.title, author := request.author,
            isbn := request.isbn, publicationYear := request.publicationYear)
  }

  /** `list` holds, in increasing key order, the books stored under the keys
      below `k`, each book carrying its key as id; `keys` records those keys. */
  ghost predicate Visited(books: map<int, Book>, k: int, keys: seq<int>, list: seq<Book>) {
    && |keys| == |list|
    && |list| == |set j | j in books && j < k|
    && (forall i :: 0 <= i < |keys| ==> keys[i] in books && keys[i] < k && list[i] == books[keys[i]])
    && (forall i :: 0 <= i < |list| ==> list[i].id == Some(keys[i]))
    && (forall j :: j in books && j < k ==> j in keys)
    && (forall i, j :: 0 <= i < j < |keys| ==> keys[i] < keys[j])
  }

  /** Visiting key `k` extends the listing by the book stored there, if any. */
  lemma VisitNext(books: map<int, Book>, k: int, keys: seq<int>, list: seq<Book>)
    requires Visited(books, k, keys, list)
    requires k in books ==> books[k].id == Some(k)
    ensures k in books ==> Visited(books, k + 1, keys + [k], list + [books[k]])
    ensures k !in books ==> Visited(books, k + 1, keys, list)
  {
    var below := set j | j in books && j < k;
    if k in books {
      assert (set j | j in books && j < k + 1) == below + {k};
    } else {
      assert (set j | j in books && j < k + 1) == below;
    }
  }

  /** Counting the keys below a bound that exceeds them all counts the whole map. */
  lemma AllKeysBelow(books: map<int, Book>, bound: int)
    requires forall j :: j in books ==> j < bound
    ensures |set j | j in books && j < bound| == |books|
  {
    assert (set j | j in books && j < bound) == books.Keys;
  }

  /** A listing that has passed every key holds each stored book exactly once. */
  lemma ListedOnce(books: map<int, Book>, k: int, keys: seq<int>, list: seq<Book>)
    requires Visited(books, k, keys, list)
    requires forall j :: j in books ==> j < k
    ensures |list| == |books|
    ensures forall i, j :: 0 <= i < j < |list| ==> list[i] != list[j]
    ensures forall j :: j in books ==> books[j] in list
  {
    AllKeysBelow(books, k);
    forall i, j | 0 <= i < j < |list| ensures list[i] != list[j] {
      assert list[i].id == Some(keys[i]) && list[j].id == Some(keys[j]);
    }
    forall j | j in books ensures books[j] in list {
      var i :| 0 <= i < |keys| && keys[i] == j;
      assert list[i] == books[j];
    }
  }

  class BookController {
    var books: map<int, Book>
    var counter: nat
    /** Every id the counter has handed out, deleted or not. */
    ghost var issued: set<int>

    /** The ids issued are 1 to `counter`; every stored book sits under an
        issued key equal to its own id, so no two stored books share an id. */
    ghost predicate Valid()
      reads this
    {
      && (forall k :: k in issued <==> 1 <= k <= counter)
      && (forall k :: k in books ==> k in issued && books[k].id == Some(k))
    }

    constructor ()
      ensures Valid()
      ensures books == map[] && counter == 0 && issued == {}
    {
      books, counter, issued := map[], 0, {};
    }

    /** `createBook`: the counter moves up by one, the request is stored
        under the new value with its id replaced by it, and 201 is returned. */
    method CreateBook(book: Book) returns (r: Response)
      requires Valid()
      modifies this
      ensures Valid()
      ensures counter == old(counter) + 1
      ensures counter !in old(issued) && issued == old(issued) + {counter}
      ensures forall k :: k in old(issued) ==> k < counter
      ensures books == old(books)[counter := book.(id := Some(counter))]
      ensures r == Response(CREATED, One(book.(id := Some(counter))))
    {
      counter := counter + 1;
      issued := issued + {counter};
      var id := counter;
      var request := new BookObject(book.id, book.title, book.author, book.isbn, book.publicationYear);
      request.SetId(Some(id));
      var stored := request.Value();
      books := books[id := stored];
      r := Response(CREATED, One(stored));
    }

    /** `getAllBooks`: a list holding every stored book exactly once, in the
        order the keys happen to be visited, with status 200. */
    method GetAllBooks() returns (r: Response)
      requires Valid()
      ensures r.status == OK && r.body.Many?
      ensures |r.body.books| == |books|
      ensures forall k :: k in books ==> books[k] in r.body.books
      ensures forall i :: 0 <= i < |r.body.books| ==>
                var b := r.body.books[i]; b.id.Some? && b.id.value in books && books[b.id.value] == b
      ensures forall i, j :: 0 <= i < j < |r.body.books| ==> r.body.books[i] != r.body.books[j]
    {
      // The keys are ids between 1 and the counter, so visiting those ids in
      // increasing order meets every key once.
      var list: seq<Book> := [];
      var k := 1;
      ghost var seen: seq<int> := [];
      assert (set j | j in books && j < 1) == {};
      while k <= counter
        invariant 1 <= k <= counter + 1
        invariant Visited(books, k, seen, list)
      {
        VisitNext(books, k, seen, list);
        if k in books {
          list := list + [books[k]];
          seen := seen + [k];
        }
        k := k + 1;
      }
      ListedOnce(books, k, seen, list);
      r := Response(OK, Many(list));
    }

    /** `getBookById`: 200 with the book stored under `id`, or 404 with no body. */
    method GetBookById(id: int) returns (r: Response)
      requires Valid()
      ensures r.status == OK <==> id in books
      ensures r.status == OK ==> r.body.One? && r.body.book.id == Some(id) && books[id] == r.body.book
      ensures r.status != OK ==> r == Response(NOT_FOUND, Empty)
    {
      if id in books {
        r := Response(OK, One(books[id]));
      } else {
        r := Response(NOT_FOUND, Empty);
      }
    }

    /** `updateBook`: on an absent id nothing is written and 404 comes back;
        otherwise the four mutable fields are overwritten through the
        setters, the id is kept, and the revised book comes back with 200. */
    method UpdateBook(id: int, request: Book) returns (r: Response)
      requires Valid()
      modifies this
      ensures Valid()
      ensures counter == old(counter) && issued == old(issued)
      ensures id !in old(books) ==> books == old(books) && r == Response(NOT_FOUND, Empty)
      ensures id in old(books) ==>
                && books == old(books)[id := Revised(old(books)[id], request)]
                && r == Response(OK, One(books[id]))
    {
      if id in books {
        var existing := books[id];
        var entity := new BookObject(existing.id, existing.title, existing.author,
                                     existing.isbn, existing.publicationYear);
        entity.SetTitle(request.title);
        entity.SetAuthor(request.author);
        entity.SetIsbn(request.isbn);
        entity.SetPublicationYear(request.publicationYear);
        books := books[id := entity.Value()];
        r := Response(OK, One(entity.Value()));
      } else {
        r := Response(NOT_FOUND, Empty);
      }
    }

    /** `deleteBook`: removes the id if present (204), else 404; the counter
        is left alone, so a deleted id is never handed out again. */
    method DeleteBook(id: int) returns (r: Response)
      requires Valid()
      modifies this
      ensures Valid()
      ensures counter == old(counter) && issued == old(issued)
      ensures books == old(books) - {id}
      ensures r == Response(if id in old(books) then NO_CONTENT else NOT_FOUND, Empty)
    {
      if id in books {
        books := books - {id};
        r := Response(NO_CONTENT, Empty);
      } else {
        r := Response(NOT_FOUND, Empty);
      }
    }
  }

  /** Creating a book and then reading its new id gives back the request
      with that id filled in. */
  method CreateThenGet(store: BookController, book: Book) returns (created: Response, fetched: Response)
    requires store.Valid()
    modifies store
    ensures store.Valid()
    ensures created.status == CREATED && created.body.One?
    ensures created.body.book == book.(id := Some(store.counter))
    ensures fetched == Response(OK, One(book.(id := Some(store.counter))))
  {
    created := store.CreateBook(book);
    fetched := store.GetBookById(store.counter);
  }

  /** After a delete the id reads as absent, a second delete reports 404,
      and the next create mints a larger id than any issued before. */
  method DeleteIsFinal(store: BookController, id: int, book: Book)
    returns (first: Response, second: Response, fetched: Response, next: Response)
    requires store.Valid()
    modifies store
    ensures store.Valid()
    ensures first.status == (if id in old(store.books) then NO_CONTENT else NOT_FOUND)
    ensures second == Response(NOT_FOUND, Empty) && fetched == Response(NOT_FOUND, Empty)
    ensures next.body.One? && next.body.book.id == Some(store.counter)
    ensures id in old(store.books) ==> id < store.counter
    ensures forall k :: k in old(store.issued) ==> k < store.counter
  {
    first := store.DeleteBook(id);
    second := store.DeleteBook(id);
    fetched := store.GetBookById(id);
    next := store.CreateBook(book);
  }
}
