/** The Book class of OperatorOverloading.h and
    CppExamples/OperatorOverloading.h: three `operator<` overloads, all of
    them comparisons of prices. A Book is never changed after construction,
    so it is a value; GetTitle and GetPrice are its fields. */
module OperatorOverloading {

  datatype Book = Book(title: string, author: string, price: int)

  /** The member `operator<(const Book&)`. */
  predicate BookLess(b1: Book, b2: Book)
  {
    b1.price < b2.price
  }

  /** The member `operator<(int)`. */
  predicate BookLessThanPrice(book: Book, price: int)
  {
    book.price < price
  }

  /** The friend `operator<(int, const Book&)`. */
  predicate PriceLessThanBook(price: int, book: Book)
  {
    price < book.price
  }

  /** Book < Book is a strict order: no book is cheaper than itself, the
      relation is transitive and never holds both ways. Books with equal
      prices are incomparable whatever their titles. */
  lemma BookLessIsStrictOrder(a: Book, b: Book, c: Book)
    ensures !BookLess(a, a)
    ensures BookLess(a, b) && BookLess(b, c) ==> BookLess(a, c)
    ensures BookLess(a, b) ==> !BookLess(b, a)
    ensures !BookLess(a, b) && !BookLess(b, a) <==> a.price == b.price
  {
  }

  /** The three overloads agree: comparing two books is comparing one book
      with the other's price, from either side. */
  lemma OverloadsAgree(b1: Book, b2: Book)
    ensures BookLess(b1, b2) <==> BookLessThanPrice(b1, b2.price)
    ensures BookLess(b1, b2) <==> PriceLessThanBook(b1.price, b2)
  {
  }

  /** `book < n` and `n < book` are mirror images: both false exactly when
      the price is n. */
  lemma MixedComparisonsMirror(book: Book, n: int)
    ensures BookLessThanPrice(book, n) ==> !PriceLessThanBook(n, book)
    ensures !BookLessThanPrice(book, n) && !PriceLessThanBook(n, book) <==> book.price == n
  {
  }

  /** One clause BookTest writes: "<a> is cheaper than <b>", "<a> is more
      expensive than <b>", "<a> costs less than $<n>" or "<a> costs more
      than $<n>". */
  datatype Clause =
    | Cheaper(title: string, other: string)
    | MoreExpensive(title: string, other: string)
    | CostsLess(title: string, amount: int)
    | CostsMore(title: string, amount: int)

  /** What BookTest writes to the console for two books: one clause per
      comparison, in order (the source follows each with ", "). */
  function BookReport(b1: Book, b2: Book): (out: seq<Clause>)
    ensures |out| == 3
    ensures out[0].Cheaper? <==> b1.price < b2.price
    ensures out[1].CostsLess? <==> b2.price < 90
    ensures out[2].CostsMore? <==> 200 < b1.price
    ensures out[0].title == b1.title && out[1].title == b2.title && out[2].title == b1.title
  {
    [ if BookLess(b1, b2) then Cheaper(b1.title, b2.title) else MoreExpensive(b1.title, b2.title),
      if BookLessThanPrice(b2, 90) then CostsLess(b2.title, 90) else CostsMore(b2.title, 90),
      if PriceLessThanBook(200, b1) then CostsMore(b1.title, 200) else CostsLess(b1.title, 200) ]
  }

  /** BookTest: with prices 100 and 80 the three comparisons are false, true
      and false, and the output is the one documented in the source:
      "AAA is more expensive than BBB", "BBB costs less than $90",
      "AAA costs less than $200". */
  lemma BookTestDemo()
    ensures var b1, b2 := Book("AAA", "Author1", 100), Book("BBB", "Author2", 80);
      !BookLess(b1, b2) && BookLessThanPrice(b2, 90) && !PriceLessThanBook(200, b1)
    ensures BookReport(Book("AAA", "Author1", 100), Book("BBB", "Author2", 80))
      == [MoreExpensive("AAA", "BBB"), CostsLess("BBB", 90), CostsLess("AAA", 200)]
  {
  }
}
