/**
 * The backend endpoint `GET /api/books`: `BookController::index` asks the
 * book catalogue of the-one-api.dev for its books and answers with the
 * name of each book, or with a 500 error.
 *
 * The outbound request is not modelled: its outcome (an exception, or a reply
 * with a status and a decoded body) is the input of `Index`, and the JSON
 * response is the output value.
 */
module BookController {
  import opened Wrappers

  /** A JSON scalar, as the value of a field of an upstream book record. */
  datatype Json = JString(s: string) | JNumber(n: int) | JBool(b: bool) | JNull

  /** A decoded JSON object: field name to value (`_id`, `name`, `author`, ...). */
  type Record = map<string, Json>

  /**
   * The decoded upstream body. `docs` is None when the body has no `docs`
   * field, when that field is null, or when the body is not JSON at all
   * (Laravel's `json()` then gives null); `?? []` treats all three alike.
   */
  datatype Envelope = Envelope(docs: Option<seq<Record>>)

  /** What the call to the catalogue did: threw, or replied. */
  datatype Upstream = Thrown(message: string) | Reply(status: int, body: Envelope)

  /** The JSON body sent back: a list of objects, or `{"error": ...}`. */
  datatype Payload = Books(books: seq<Record>) | Error(error: string)

  datatype JsonResponse = JsonResponse(status: int, payload: Payload)

  /** The URL whose outcome `Index` receives as its `Upstream` argument. */
  const UpstreamUrl := "https://the-one-api.dev/v2/book?limit=100"

  /** The fixed message for a non-2xx upstream reply. */
  const FailedToFetch := "Failed to fetch books"

  /**
   * The message of the exception raised when a record has no `name`: PHP's
   * undefined-key warning, which Laravel turns into an ErrorException.
   */
  const UndefinedName := "Undefined array key \"name\""

  /** Laravel's `successful()`: a 2xx status. */
  predicate Successful(status: int)
  {
    200 <= status < 300
  }

  predicate HasName(book: Record)
  {
    "name" in book
  }

  /** The closure given to `array_map`: keep the `name` field only. */
  function ProjectBook(book: Record): (p: Record)
    requires HasName(book)
    ensures p.Keys == {"name"} && p["name"] == book["name"]
  {
    map["name" := book["name"]]
  }

  /**
   * `array_map` of `ProjectBook` over `docs`, left to right; the first record
   * without a `name` raises `UndefinedName` and ends the projection.
   */
  function ProjectAll(docs: seq<Record>): (r: Result<seq<Record>, string>)
    ensures r.Success? <==> forall i :: 0 <= i < |docs| ==> HasName(docs[i])
    ensures r.Failure? ==> r.error == UndefinedName
    ensures r.Success? ==> |r.value| == |docs|
    ensures r.Success? ==> forall i :: 0 <= i < |docs| ==>
              r.value[i].Keys == {"name"} && r.value[i]["name"] == docs[i]["name"]
  {
    if docs == [] then Success([])
    else if !HasName(docs[0]) then Failure(UndefinedName)
    else match ProjectAll(docs[1..])
      case Failure(e) => Failure(e)
      case Success(rest) => Success([ProjectBook(docs[0])] + rest)
  }

  /** Whether every record of a 2xx reply's `docs` list has a `name`. */
  predicate AllNamed(body: Envelope)
  {
    forall i :: 0 <= i < |body.docs.GetOr([])| ==> HasName(body.docs.GetOr([])[i])
  }

  /** `BookController::index`, given the outcome of the upstream call. */
  function Index(upstream: Upstream): (r: JsonResponse)
    // the only statuses are 200 and 500; 200 is the successful path alone
    ensures r.status == 200 || r.status == 500
    ensures r.status == 200 <==> upstream.Reply? && Successful(upstream.status) && AllNamed(upstream.body)
    ensures r.status == 200 <==> r.payload.Books?
    // an exception's message is forwarded verbatim
    ensures upstream.Thrown? ==> r == JsonResponse(500, Error(upstream.message))
    // a non-2xx reply gives the fixed message, whatever its body
    ensures upstream.Reply? && !Successful(upstream.status) ==> r == JsonResponse(500, Error(FailedToFetch))
    // a 2xx reply without docs gives an empty list
    ensures upstream.Reply? && Successful(upstream.status) && upstream.body.docs.None? ==>
              r == JsonResponse(200, Books([]))
    // a 2xx reply with a nameless record ends in the exception branch
    ensures upstream.Reply? && Successful(upstream.status) && !AllNamed(upstream.body) ==>
              r == JsonResponse(500, Error(UndefinedName))
    // a 2xx reply: one object per record, in the same order, holding only its name
    ensures r.payload.Books? ==>
              var docs := upstream.body.docs.GetOr([]);
              |r.payload.books| == |docs| &&
              forall i :: 0 <= i < |docs| ==>
                r.payload.books[i].Keys == {"name"} && r.payload.books[i]["name"] == docs[i]["name"]
  {
    match upstream
    case Thrown(message) => JsonResponse(500, Error(message))
    case Reply(status, body) =>
      if Successful(status) then
        match ProjectAll(body.docs.GetOr([]))
        case Success(names) => JsonResponse(200, Books(names))
        // the ErrorException is caught like any other exception
        case Failure(message) => JsonResponse(500, Error(message))
      else
        JsonResponse(500, Error(FailedToFetch))
  }

  /** The projection goes record by record: projecting `a + b` is projecting `a`, then `b`. */
  lemma {:induction false} ProjectAllAppend(a: seq<Record>, b: seq<Record>)
    ensures ProjectAll(a + b) ==
              match (ProjectAll(a), ProjectAll(b))
              case (Success(pa), Success(pb)) => Success(pa + pb)
              case _ => Failure(UndefinedName)
  {
    if a == [] {
      assert a + b == b;
      match ProjectAll(b)
      case Success(pb) => assert [] + pb == pb;
      case Failure(_) =>
    } else {
      assert (a + b)[0] == a[0];
      assert (a + b)[1..] == a[1..] + b;
      ProjectAllAppend(a[1..], b);
      if HasName(a[0]) {
        match (ProjectAll(a[1..]), ProjectAll(b))
        case (Success(pa), Success(pb)) =>
          assert [ProjectBook(a[0])] + (pa + pb) == ([ProjectBook(a[0])] + pa) + pb;
        case _ =>
      }
    }
  }

  /** The projection is idempotent: projected records project to themselves. */
  lemma {:induction false} ProjectAllIdempotent(docs: seq<Record>)
    requires ProjectAll(docs).Success?
    ensures ProjectAll(ProjectAll(docs).value) == ProjectAll(docs)
  {
    if docs != [] {
      ProjectAllIdempotent(docs[1..]);
      var p := ProjectAll(docs).value;
      assert p == [ProjectBook(docs[0])] + ProjectAll(docs[1..]).value;
      assert p[1..] == ProjectAll(docs[1..]).value;
      assert ProjectBook(p[0]) == p[0];
    }
  }

  /** Two upstream replies with the same names get the same answer: nothing else of a record reaches the response. */
  lemma ResponseDependsOnNamesOnly(status: int, a: seq<Record>, b: seq<Record>)
    requires |a| == |b|
    requires forall i :: 0 <= i < |a| ==>
               (HasName(a[i]) <==> HasName(b[i])) && (HasName(a[i]) ==> a[i]["name"] == b[i]["name"])
    ensures Index(Reply(status, Envelope(Some(a)))) == Index(Reply(status, Envelope(Some(b))))
  {
    var ra, rb := Index(Reply(status, Envelope(Some(a)))), Index(Reply(status, Envelope(Some(b))));
    if ra.payload.Books? {
      assert rb.payload.Books?;
      forall i | 0 <= i < |a| ensures ra.payload.books[i] == rb.payload.books[i] {
        assert ra.payload.books[i].Keys == rb.payload.books[i].Keys;
      }
    }
  }

  /**
   * The records of the unit test that checks the transformation: each carries
   * `_id`, `name`, `author` and `year`, and only the names come back.
   */
  lemma FellowshipScenario()
    ensures Index(Reply(200, Envelope(Some([
              map["_id" := JString("5cf5805fb53e011a64671582"), "name" := JString("The Fellowship Of The Ring"),
                  "author" := JString("J.R.R. Tolkien"), "year" := JNumber(1954)],
              map["_id" := JString("5cf58077b53e011a64671583"), "name" := JString("The Two Towers"),
                  "author" := JString("J.R.R. Tolkien"), "year" := JNumber(1954)]]))))
            == JsonResponse(200, Books([
              map["name" := JString("The Fellowship Of The Ring")],
              map["name" := JString("The Two Towers")]]))
  {
  }
}
