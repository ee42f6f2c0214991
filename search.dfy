/**
 * The search page: it fetches `/api/books` once, keeps the list in memory and
 * shows the books whose name contains the search term, ignoring letter case,
 * with a "Found N book(s)" label.
 *
 * React's state cells are the fields of `SearchPage`; an effect is a method
 * that runs after the state it depends on has changed. `fetch` and
 * `response.json()` are not modelled: their outcome is a `FetchOutcome`.
 */
module Search {
  import opened Wrappers

  /** A book as the endpoint sends it. */
  datatype Book = Book(name: string)

  /** The message thrown, and then shown, when the response is not ok. */
  const FailedToFetch := "Failed to fetch books"

  // ---------------------------------------------------------------------
  // Case folding and substring search
  // ---------------------------------------------------------------------

  /** `toLowerCase` on one character, restricted to ASCII letters. */
  function LowerChar(c: char): (d: char)
    ensures 'A' <= c <= 'Z' ==> 'a' <= d <= 'z' && d as int - 'a' as int == c as int - 'A' as int
    ensures !('A' <= c <= 'Z') ==> d == c
  {
    if 'A' <= c <= 'Z' then (c as int - 'A' as int + 'a' as int) as char else c
  }

  /** `toLowerCase` on a string, character by character. */
  function Lower(s: string): (r: string)
    ensures |r| == |s|
    ensures forall i :: 0 <= i < |s| ==> r[i] == LowerChar(s[i])
  {
    if s == [] then [] else [LowerChar(s[0])] + Lower(s[1..])
  }

  lemma LowerIdempotent(s: string)
    ensures Lower(Lower(s)) == Lower(s)
  {
  }

  /** `hay.includes(needle)`: the needle is a prefix of some suffix of the hay. */
  predicate Contains(hay: string, needle: string)
    ensures needle == "" ==> Contains(hay, needle)
    ensures Contains(hay, needle) ==> |needle| <= |hay|
  {
    needle <= hay || (hay != [] && Contains(hay[1..], needle))
  }

  /** The needle occurs in the hay starting at position `i`. */
  predicate OccursAt(hay: string, needle: string, i: int)
  {
    0 <= i <= |hay| - |needle| && hay[i..i + |needle|] == needle
  }

  /** `includes` as "occurs at some position", the way the callback reads. */
  lemma {:induction false} ContainsAt(hay: string, needle: string)
    ensures Contains(hay, needle) <==> exists i :: OccursAt(hay, needle, i)
  {
    if needle <= hay {
      assert OccursAt(hay, needle, 0);
    } else if hay != [] {
      ContainsAt(hay[1..], needle);
      if exists i :: OccursAt(hay, needle, i) {
        var i :| OccursAt(hay, needle, i);
        assert i != 0;
        assert OccursAt(hay[1..], needle, i - 1);
      }
      if Contains(hay[1..], needle) {
        var i :| OccursAt(hay[1..], needle, i);
        assert hay[i + 1..i + 1 + |needle|] == hay[1..][i..i + |needle|];
        assert OccursAt(hay, needle, i + 1);
      }
    }
  }

  /** The test of the filter's callback, given the term already lowered. */
  predicate Matches(book: Book, loweredTerm: string)
    ensures loweredTerm == "" ==> Matches(book, loweredTerm)
    ensures Matches(book, loweredTerm) ==> |loweredTerm| <= |book.name|
  {
    Contains(Lower(book.name), loweredTerm)
  }

  // ---------------------------------------------------------------------
  // The filter effect
  // ---------------------------------------------------------------------

  /** `books.filter(...)`: the books that match, in their original order. */
  function Matching(books: seq<Book>, loweredTerm: string): (r: seq<Book>)
    ensures |r| <= |books|
    ensures forall i :: 0 <= i < |r| ==> Matches(r[i], loweredTerm)
  {
    if books == [] then []
    else (if Matches(books[0], loweredTerm) then [books[0]] else []) + Matching(books[1..], loweredTerm)
  }

  /** A book is kept exactly when it is in the list and matches. */
  lemma {:induction false} MatchingMembers(books: seq<Book>, loweredTerm: string, b: Book)
    ensures b in Matching(books, loweredTerm) <==> b in books && Matches(b, loweredTerm)
  {
    if books != [] {
      MatchingMembers(books[1..], loweredTerm, b);
      assert books == [books[0]] + books[1..];
    }
  }

  /** What the filter effect sets `filteredBooks` to. */
  function FilterBooks(books: seq<Book>, searchTerm: string): (r: seq<Book>)
    // the empty-term shortcut agrees with the filter it skips
    ensures r == Matching(books, Lower(searchTerm))
  {
    if searchTerm == "" then
      MatchingEverything(books);
      books
    else
      Matching(books, Lower(searchTerm))
  }

  /** A book is shown exactly when its lowercased name contains the lowercased term. */
  lemma FilterMembers(books: seq<Book>, searchTerm: string, b: Book)
    ensures b in FilterBooks(books, searchTerm) <==> b in books && Contains(Lower(b.name), Lower(searchTerm))
  {
    MatchingMembers(books, Lower(searchTerm), b);
  }

  /** Every name contains the empty string, so the filter keeps everything. */
  lemma {:induction false} MatchingEverything(books: seq<Book>)
    ensures Matching(books, "") == books
  {
    if books != [] {
      MatchingEverything(books[1..]);
    }
  }

  lemma EmptyTermShowsAll(books: seq<Book>)
    ensures FilterBooks(books, "") == books
  {
  }

  /** `xs` is `ys` with some elements left out, the rest in order. */
  predicate IsSubsequence<T(==)>(xs: seq<T>, ys: seq<T>)
    decreases |ys|
  {
    xs == [] || (ys != [] && ((xs[0] == ys[0] && IsSubsequence(xs[1..], ys[1..])) || IsSubsequence(xs, ys[1..])))
  }

  lemma {:induction false} MatchingIsSubsequence(books: seq<Book>, loweredTerm: string)
    ensures IsSubsequence(Matching(books, loweredTerm), books)
  {
    if books != [] {
      MatchingIsSubsequence(books[1..], loweredTerm);
      var rest := Matching(books[1..], loweredTerm);
      if Matches(books[0], loweredTerm) {
        assert Matching(books, loweredTerm) == [books[0]] + rest;
        assert ([books[0]] + rest)[1..] == rest;
      } else {
        assert Matching(books, loweredTerm) == rest;
        if rest != [] {
          assert IsSubsequence(rest, books[1..]);
        }
      }
    }
  }

  /**
   * The filter keeps each matching book as often as it occurs and drops every
   * other one: with the subsequence lemma this fixes the result exactly.
   */
  lemma {:induction false} MatchingCounts(books: seq<Book>, loweredTerm: string, b: Book)
    ensures multiset(Matching(books, loweredTerm))[b] ==
              if Matches(b, loweredTerm) then multiset(books)[b] else 0
  {
    if books != [] {
      MatchingCounts(books[1..], loweredTerm, b);
      assert books == [books[0]] + books[1..];
      assert multiset(books) == multiset([books[0]]) + multiset(books[1..]);
    }
  }

  /** The filtered list is the list of books with some left out, in order. */
  lemma FilterIsSubsequence(books: seq<Book>, searchTerm: string)
    ensures IsSubsequence(FilterBooks(books, searchTerm), books)
    ensures |FilterBooks(books, searchTerm)| <= |books|
  {
    MatchingIsSubsequence(books, Lower(searchTerm));
  }

  /** The filter keeps exactly the matching books, each as often as it occurs. */
  lemma FilterCounts(books: seq<Book>, searchTerm: string, b: Book)
    ensures multiset(FilterBooks(books, searchTerm))[b] ==
              if Contains(Lower(b.name), Lower(searchTerm)) then multiset(books)[b] else 0
  {
    MatchingCounts(books, Lower(searchTerm), b);
  }

  /** Filtering distributes over concatenation: each book is judged alone. */
  lemma {:induction false} MatchingAppend(a: seq<Book>, b: seq<Book>, loweredTerm: string)
    ensures Matching(a + b, loweredTerm) == Matching(a, loweredTerm) + Matching(b, loweredTerm)
  {
    if a == [] {
      assert a + b == b;
    } else {
      assert (a + b)[0] == a[0];
      assert (a + b)[1..] == a[1..] + b;
      MatchingAppend(a[1..], b, loweredTerm);
    }
  }

  /** Terms that differ only in letter case select the same books. */
  lemma FilterIgnoresCase(books: seq<Book>, term1: string, term2: string)
    requires Lower(term1) == Lower(term2)
    ensures FilterBooks(books, term1) == FilterBooks(books, term2)
  {
  }

  /** Filtering the filtered list again with the same term changes nothing. */
  lemma {:induction false} MatchingIdempotent(books: seq<Book>, loweredTerm: string)
    ensures Matching(Matching(books, loweredTerm), loweredTerm) == Matching(books, loweredTerm)
  {
    if books != [] {
      MatchingIdempotent(books[1..], loweredTerm);
      var rest := Matching(books[1..], loweredTerm);
      if Matches(books[0], loweredTerm) {
        var once := [books[0]] + rest;
        assert Matching(books, loweredTerm) == once;
        assert once[0] == books[0] && once[1..] == rest;
        assert Matching(once, loweredTerm) == [books[0]] + Matching(rest, loweredTerm);
      } else {
        assert Matching(books, loweredTerm) == rest;
      }
    }
  }

  lemma FilterIdempotent(books: seq<Book>, searchTerm: string)
    ensures FilterBooks(FilterBooks(books, searchTerm), searchTerm) == FilterBooks(books, searchTerm)
  {
    MatchingIdempotent(books, Lower(searchTerm));
  }

  // ---------------------------------------------------------------------
  // The result count label
  // ---------------------------------------------------------------------

  function DigitChar(d: nat): (c: char)
    requires d < 10
  {
    ('0' as int + d) as char
  }

  predicate IsDigit(c: char)
  {
    '0' <= c <= '9'
  }

  /** A number as React renders it in text: decimal, without leading zeros. */
  function Decimal(n: nat): (s: string)
    ensures |s| >= 1
    ensures forall i :: 0 <= i < |s| ==> IsDigit(s[i])
    ensures |s| > 1 ==> s[0] != '0'
  {
    if n < 10 then [DigitChar(n)] else Decimal(n / 10) + [DigitChar(n % 10)]
  }

  /** The value of a string of decimal digits. */
  function DecimalValue(s: string): nat
    requires forall i :: 0 <= i < |s| ==> IsDigit(s[i])
  {
    if s == [] then 0
    else
      var last := s[|s| - 1];
      assert IsDigit(last);
      10 * DecimalValue(s[..|s| - 1]) + (last as int - '0' as int)
  }

  /** Rendering a count and reading it back gives the count. */
  lemma {:induction false} DecimalRoundTrip(n: nat)
    ensures DecimalValue(Decimal(n)) == n
  {
    var s := Decimal(n);
    if n >= 10 {
      DecimalRoundTrip(n / 10);
      assert s[..|s| - 1] == Decimal(n / 10);
    }
  }

  /** `book{n !== 1 ? 's' : ''}`. */
  function PluralSuffix(n: nat): (s: string)
    ensures s == "" <==> n == 1
    ensures s != "" ==> s == "s"
  {
    if n != 1 then "s" else ""
  }

  /** `Found {n} book{n !== 1 ? 's' : ''}`. */
  function CountLabel(n: nat): (text: string)
    ensures 6 + |Decimal(n)| <= |text| && text[..6] == "Found "
    ensures text[6..6 + |Decimal(n)|] == Decimal(n)
    ensures text[6 + |Decimal(n)|..] == (if n == 1 then " book" else " books")
  {
    var digits := Decimal(n);
    var tail := " book" + PluralSuffix(n);
    var rest := digits + tail;
    var t := "Found " + rest;
    assert t[..6] == "Found " && t[6..] == rest;
    assert rest[..|digits|] == digits && rest[|digits|..] == tail;
    assert t[6..6 + |digits|] == rest[..|digits|];
    assert t[6 + |digits|..] == rest[|digits|..];
    t
  }

  lemma CountLabelExamples()
    ensures CountLabel(0) == "Found 0 books"
    ensures CountLabel(1) == "Found 1 book"
    ensures CountLabel(12) == "Found 12 books"
  {
    assert Decimal(12) == Decimal(1) + [DigitChar(2)];
  }

  // ---------------------------------------------------------------------
  // The page state
  // ---------------------------------------------------------------------

  /**
   * What `fetch('/api/books')` and `response.json()` did: one of them threw
   * (`Rejected`), or the response arrived with a status and, when it is ok,
   * the decoded list of books.
   */
  datatype FetchOutcome = Rejected(message: string) | Delivered(status: int, data: seq<Book>)

  /** `response.ok`. */
  predicate Ok(status: int)
  {
    200 <= status <= 299
  }

  class SearchPage {
    var books: seq<Book>
    var filteredBooks: seq<Book>
    var searchTerm: string
    var loading: bool
    /** `null`, or the message of the last failed fetch. */
    var error: Option<string>

    /** The filter effect has run since `books` or `searchTerm` last changed. */
    ghost predicate Consistent()
      reads this
    {
      filteredBooks == FilterBooks(books, searchTerm)
    }

    /** The initial `useState` values. */
    constructor ()
      ensures books == [] && filteredBooks == [] && searchTerm == ""
      ensures loading && error == None
      ensures Consistent()
    {
      books := [];
      filteredBooks := [];
      searchTerm := "";
      loading := true;
      error := None;
    }

    /** The effect on `[searchTerm, books]`. */
    method FilterEffect()
      modifies this`filteredBooks
      ensures Consistent()
    {
      filteredBooks := FilterBooks(books, searchTerm);
    }

    /** Typing in the search box: the term changes and the filter effect runs. */
    method SetSearchTerm(term: string)
      modifies this`searchTerm, this`filteredBooks
      ensures searchTerm == term && Consistent()
      ensures forall b :: b in filteredBooks <==> b in books && Contains(Lower(b.name), Lower(term))
    {
      searchTerm := term;
      FilterEffect();
      forall b {
        FilterMembers(books, term, b);
      }
    }

    /** The clear button: the term becomes empty and every book is shown. */
    method ClearSearch()
      modifies this`searchTerm, this`filteredBooks
      ensures searchTerm == "" && Consistent()
      ensures filteredBooks == books
    {
      SetSearchTerm("");
    }

    /** `fetchBooks`: the state cells it sets, in its order, given the outcome. */
    method FetchBooks(outcome: FetchOutcome)
      modifies this`books, this`filteredBooks, this`loading, this`error
      ensures !loading
      ensures outcome.Delivered? && Ok(outcome.status) ==>
                books == outcome.data && filteredBooks == outcome.data && error == None
      ensures outcome.Delivered? && !Ok(outcome.status) ==>
                error == Some(FailedToFetch) && books == old(books) && filteredBooks == old(filteredBooks)
      ensures outcome.Rejected? ==>
                error == Some(outcome.message) && books == old(books) && filteredBooks == old(filteredBooks)
    {
      loading := true;
      var thrown: Option<string> := None;
      match outcome {
        case Rejected(message) =>
          thrown := Some(message);
        case Delivered(status, data) =>
          if !Ok(status) {
            thrown := Some(FailedToFetch);
          } else {
            books := data;
            filteredBooks := data;
            error := None;
          }
      }
      if thrown.Some? {
        error := thrown;
      }
      loading := false;
    }

    /**
     * A fetch and the renders after it: when `books` changed, the filter
     * effect runs again, so a term typed during the fetch applies to the
     * fetched list.
     */
    method CompleteFetch(outcome: FetchOutcome)
      requires Consistent()
      modifies this`books, this`filteredBooks, this`loading, this`error
      ensures !loading && Consistent()
      ensures outcome.Delivered? && Ok(outcome.status) ==>
                books == outcome.data && error == None &&
                filteredBooks == FilterBooks(outcome.data, searchTerm)
      ensures outcome.Delivered? && Ok(outcome.status) && searchTerm == "" ==> filteredBooks == outcome.data
      ensures outcome.Delivered? && !Ok(outcome.status) ==>
                error == Some(FailedToFetch) && books == old(books) && filteredBooks == old(filteredBooks)
      ensures outcome.Rejected? ==>
                error == Some(outcome.message) && books == old(books) && filteredBooks == old(filteredBooks)
    {
      FetchBooks(outcome);
      if outcome.Delivered? && Ok(outcome.status) {
        FilterEffect();
      }
    }

    /** The label under the search box. */
    method ResultLabel() returns (text: string)
      ensures text == "Found " + Decimal(|filteredBooks|) + (if |filteredBooks| == 1 then " book" else " books")
    {
      text := CountLabel(|filteredBooks|);
      var digits := Decimal(|filteredBooks|);
      assert text == text[..6] + text[6..6 + |digits|] + text[6 + |digits|..];
    }
  }
}
