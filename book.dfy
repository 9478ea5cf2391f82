/** The book record shared by the store and the gateway (Book.java): five
    fields, the two constructors, one setter per field, structural `equals`
    and the fixed `toString` layout. */
module Books {
  import opened Options
  import Decimal

  /** Java `int`, the type of `publicationYear`. */
  type Int32 = x: int | -0x8000_0000 <= x < 0x8000_0000

  /** The value of a Book object at one moment. A `null` id, title, author
      or isbn is `None`; the id is a `Long`, unbounded here. */
  datatype Book = Book(
    id: Option<int>,
    title: Option<string>,
    author: Option<string>,
    isbn: Option<string>,
    publicationYear: Int32)

  /** What the no-argument constructor leaves: every reference null, the year 0. */
  const Blank := Book(None, None, None, None, 0)

  /** A Book object whose setters update its fields in place. Its getters
      are its fields; `Value` is the record they make up together. */
  class BookObject {
    var id: Option<int>
    var title: Option<string>
    var author: Option<string>
    var isbn: Option<string>
    var publicationYear: Int32

    function Value(): Book
      reads this
    {
      Book(id, title, author, isbn, publicationYear)
    }

    constructor Empty()
      ensures Value() == Blank
    {
      id, title, author, isbn, publicationYear := None, None, None, None, 0;
    }

    constructor (id: Option<int>, title: Option<string>, author: Option<string>,
                 isbn: Option<string>, publicationYear: Int32)
      ensures this.id == id && this.title == title && this.author == author
      ensures this.isbn == isbn && this.publicationYear == publicationYear
    {
      this.id := id;
      this.title := title;
      this.author := author;
      this.isbn := isbn;
      this.publicationYear := publicationYear;
    }

    method SetId(id: Option<int>)
      modifies this`id
      ensures Value() == old(Value()).(id := id)
    {
      this.id := id;
    }

    method SetTitle(title: Option<string>)
      modifies this`title
      ensures Value() == old(Value()).(title := title)
    {
      this.title := title;
    }

    method SetAuthor(author: Option<string>)
      modifies this`author
      ensures Value() == old(Value()).(author := author)
    {
      this.author := author;
    }

    method SetIsbn(isbn: Option<string>)
      modifies this`isbn
      ensures Value() == old(Value()).(isbn := isbn)
    {
      this.isbn := isbn;
    }

    method SetPublicationYear(publicationYear: Int32)
      modifies this`publicationYear
      ensures Value() == old(Value()).(publicationYear := publicationYear)
    {
      this.publicationYear := publicationYear;
    }
  }

  /** The argument of `equals(Object)`: the receiver itself, `null`, an
      object of another class, or another Book object with the given value. */
  datatype Other = Self | Null | Foreign | Instance(book: Book)

  /** `Objects.equals` on two possibly-null references. */
  function NullSafeEquals<T(==)>(a: Option<T>, b: Option<T>): (r: bool)
    ensures r <==> a == b
  {
    match (a, b)
    case (None, None) => true
    case (Some(x), Some(y)) => x == y
    case _ => false
  }

  /** `equals`: the identity short-cut, false for null and for another
      class, otherwise a comparison of all five fields, the id included. */
  function Equals(b: Book, o: Other): (r: bool)
    ensures r <==> o == Self || o == Instance(b)
  {
    match o
    case Self => true
    case Null => false
    case Foreign => false
    case Instance(other) =>
      && b.publicationYear == other.publicationYear
      && NullSafeEquals(b.id, other.id)
      && NullSafeEquals(b.title, other.title)
      && NullSafeEquals(b.author, other.author)
      && NullSafeEquals(b.isbn, other.isbn)
  }

  /** `equals` is an equivalence on Book objects. */
  lemma EqualsIsEquivalence(a: Book, b: Book, c: Book)
    ensures Equals(a, Self) && Equals(a, Instance(a))
    ensures Equals(a, Instance(b)) == Equals(b, Instance(a))
    ensures Equals(a, Instance(b)) && Equals(b, Instance(c)) ==> Equals(a, Instance(c))
    ensures !Equals(a, Null) && !Equals(a, Foreign)
  {
  }

  /** Java string concatenation prints a null reference as "null". */
  function Shown(s: Option<string>): string {
    match s
    case None => "null"
    case Some(t) => t
  }

  function ShownId(id: Option<int>): (s: string)
    ensures ',' !in s
  {
    match id
    case None => "null"
    case Some(n) => Decimal.IntToString(n)
  }

  const IdLabel := "Book{id="
  const YearLabel := ", publicationYear="

  /** The title, author and isbn part of `toString`, from the comma after the id. */
  function Middle(b: Book): (m: string)
    ensures 0 < |m| && m[0] == ','
  {
    ", title='" + Shown(b.title) + "'"
    + ", author='" + Shown(b.author) + "'"
    + ", isbn='" + Shown(b.isbn) + "'"
  }

  /** `toString`: Book{id=…, title='…', author='…', isbn='…', publicationYear=…}. */
  function ToString(b: Book): (s: string)
    ensures |s| > |IdLabel| && s[..|IdLabel|] == IdLabel && s[|s| - 1] == '}'
  {
    IdLabel + ShownId(b.id) + Middle(b) + YearLabel + Decimal.IntToString(b.publicationYear as int) + "}"
  }

  /** The text before the first `c` (all of `s` when there is none). */
  function Before(s: string, c: char): string {
    if s == [] || s[0] == c then [] else [s[0]] + Before(s[1..], c)
  }

  /** The text after the last `c` (all of `s` when there is none). */
  function AfterLast(s: string, c: char): string
    decreases |s|
  {
    if s == [] || s[|s| - 1] == c then [] else AfterLast(s[..|s| - 1], c) + [s[|s| - 1]]
  }

  lemma {:induction false} BeforeFirst(t: string, c: char, u: string)
    requires c !in t
    ensures Before(t + [c] + u, c) == t
  {
    if t != [] {
      assert (t + [c] + u)[1..] == t[1..] + [c] + u;
      BeforeFirst(t[1..], c, u);
    }
  }

  lemma {:induction false} AfterLastOf(t: string, c: char, u: string)
    requires c !in u
    ensures AfterLast(t + [c] + u, c) == u
    decreases |u|
  {
    if u != [] {
      var s := t + [c] + u;
      assert s[..|s| - 1] == t + [c] + u[..|u| - 1];
      AfterLastOf(t, c, u[..|u| - 1]);
    }
  }

  /** Reads the id back out of `toString` text: the number between
      "Book{id=" and the first comma ("null" reads as no id). */
  function ReadId(s: string): Option<int> {
    if |IdLabel| <= |s| && s[..|IdLabel|] == IdLabel
    then Decimal.ParseDecimal(Before(s[|IdLabel|..], ','))
    else None
  }

  /** Reads the year back out of `toString` text: the number between the
      last '=' and the closing brace. */
  function ReadYear(s: string): Option<int> {
    if 0 < |s| && s[|s| - 1] == '}'
    then Decimal.ParseDecimal(AfterLast(s[..|s| - 1], '='))
    else None
  }

  /** The id printed by `toString` is exactly the record's id, whatever the
      title, author and isbn contain. */
  lemma ReadIdOfToString(b: Book)
    ensures ReadId(ToString(b)) == b.id
  {
    var s := ToString(b);
    var rest := Middle(b) + YearLabel + Decimal.IntToString(b.publicationYear as int) + "}";
    assert s == IdLabel + (ShownId(b.id) + rest);
    assert s[|IdLabel|..] == ShownId(b.id) + [','] + rest[1..];
    BeforeFirst(ShownId(b.id), ',', rest[1..]);
    match b.id
    case None =>
    case Some(n) => Decimal.ParseDecimalOfIntToString(n);
  }

  /** The year printed by `toString` is exactly the record's year, whatever
      the title, author and isbn contain. */
  lemma ReadYearOfToString(b: Book)
    ensures ReadYear(ToString(b)) == Some(b.publicationYear as int)
  {
    var s := ToString(b);
    var year := Decimal.IntToString(b.publicationYear as int);
    var head := IdLabel + ShownId(b.id) + Middle(b) + ", publicationYear";
    assert s[..|s| - 1] == head + ['='] + year;
    assert '=' !in year by {
      forall i | 0 <= i < |year| ensures year[i] != '=' { }
    }
    AfterLastOf(head, '=', year);
    Decimal.ParseDecimalOfIntToString(b.publicationYear as int);
  }
}
