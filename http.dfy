/** The parts of an HTTP response both services build: a status code and a
    body that is absent, one book, a list of books, or text. */
module Http {
  import opened Books

  const OK := 200
  const CREATED := 201
  const NO_CONTENT := 204
  const NOT_FOUND := 404
  const INTERNAL_SERVER_ERROR := 500

  datatype Body = Empty | One(book: Book) | Many(books: seq<Book>) | Text(text: string)

  datatype Response = Response(status: int, body: Body)
}
