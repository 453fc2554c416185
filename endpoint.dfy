/** The `/match-users/` endpoint (app.py:51-88): look the transaction up,
    run the name fallback chain, score and rank the users, and turn every
    exception raised on the way, the two 404s included, into a 500. */
module MatchEndpoint {
  import opened Outcomes
  import opened Extraction
  import opened Ranking

  /** A row of the transaction table. */
  datatype Transaction = Transaction(id: string, description: Cell)

  /** The dictionary `match_users` returns. */
  datatype MatchReport = MatchReport(users: seq<Match>, totalNumberOfMatches: nat)

  /** What a caller of the endpoint observes. */
  datatype Response = Ok(report: MatchReport) | HttpError(status: nat, detail: string)

  const TransactionNotFound: string := "Transaction not found"

  /** Row `k` is the first row whose id is `id`. */
  ghost predicate IsFirstRowWithId(rows: seq<Transaction>, id: string, k: int)
  {
    0 <= k < |rows| && rows[k].id == id && forall j :: 0 <= j < k ==> rows[j].id != id
  }

  /** `trans_data[trans_data['id'] == transaction_id]` followed by
      `.iloc[0]['description']`: the description of the first row with the
      id, or nothing when the selection is empty. */
  function FindTransaction(rows: seq<Transaction>, id: string): (r: Option<Cell>)
    ensures r.None? <==> forall k :: 0 <= k < |rows| ==> rows[k].id != id
    ensures forall k :: IsFirstRowWithId(rows, id, k) ==> r == Some(rows[k].description)
    decreases |rows|
  {
    if |rows| == 0 then None
    else if rows[0].id == id then Some(rows[0].description)
    else
      assert forall k :: IsFirstRowWithId(rows, id, k) ==> IsFirstRowWithId(rows[1..], id, k - 1);
      FindTransaction(rows[1..], id)
  }

  /** The name the endpoint ranks users against, or the exception raised
      before the ranking starts (app.py:56-70). */
  function ResolveName(rows: seq<Transaction>, id: string, spacy: EntityTagger, ner: TokenTagger)
    : (r: Result<string, Exception>)
    ensures r.Success? ==> r.value != ""
    ensures FindTransaction(rows, id).None? ==> r == Failure(HttpException(404, TransactionNotFound))
    ensures FindTransaction(rows, id).Some? ==> r == ExtractNameChain(FindTransaction(rows, id).value, spacy, ner)
  {
    match FindTransaction(rows, id)
    case None => Failure(HttpException(404, TransactionNotFound))
    case Some(description) => ExtractNameChain(description, spacy, ner)
  }

  // ---------------------------------------------------------------------
  // str(e) for the exceptions on this path
  // ---------------------------------------------------------------------

  function DigitChar(d: nat): (c: char)
    requires d < 10
    ensures '0' <= c <= '9'
    ensures c as int - '0' as int == d
  {
    ('0' as int + d) as char
  }

  predicate IsDigits(r: string)
  {
    forall k :: 0 <= k < |r| ==> '0' <= r[k] <= '9'
  }

  /** The number a string of decimal digits denotes. */
  function DecimalValue(r: string): nat
    requires IsDigits(r)
    decreases |r|
  {
    if |r| == 0 then 0
    else DecimalValue(r[..|r| - 1]) * 10 + (r[|r| - 1] as int - '0' as int)
  }

  /** `str(n)` for a natural number: its decimal digits, with no leading
      zero, that read back as `n`. */
  function DecimalText(n: nat): (r: string)
    ensures |r| >= 1
    ensures IsDigits(r)
    ensures |r| > 1 ==> r[0] != '0'
    ensures DecimalValue(r) == n
    decreases n
  {
    if n < 10 then [DigitChar(n)]
    else
      var r := DecimalText(n / 10) + [DigitChar(n % 10)];
      assert r[..|r| - 1] == DecimalText(n / 10);
      r
  }

  /** `str(e)`: an HTTPException prints as its status in decimal, ": " and
      its detail (Starlette's `__str__`); a RuntimeError as its message. */
  function ExceptionText(e: Exception): (r: string)
    ensures e.RuntimeError? ==> r == e.message
    ensures e.HttpException? ==>
              var cut := |r| - |e.detail| - 2;
              && 1 <= cut
              && r[cut + 2..] == e.detail
              && r[cut..cut + 2] == ": "
              && IsDigits(r[..cut])
              && DecimalValue(r[..cut]) == e.status
  {
    match e
    case HttpException(status, detail) =>
      var digits := DecimalText(status);
      var r := digits + ": " + detail;
      assert r[..|digits|] == digits && r[|digits|..|digits| + 2] == ": " && r[|digits| + 2..] == detail;
      r
    case RuntimeError(message) => message
  }

  const InternalServerErrorPrefix: string := "Internal Server Error: "

  /** The HTTPException of app.py:87-88: status 500, and a detail that is
      "Internal Server Error: " followed by `str(e)`. */
  function InternalServerError(e: Exception): (r: Response)
    ensures r.HttpError? && r.status == 500
    ensures |r.detail| == |InternalServerErrorPrefix| + |ExceptionText(e)|
    ensures r.detail[..|InternalServerErrorPrefix|] == InternalServerErrorPrefix
    ensures r.detail[|InternalServerErrorPrefix|..] == ExceptionText(e)
  {
    HttpError(500, InternalServerErrorPrefix + ExceptionText(e))
  }

  lemma DecimalTextOf404()
    ensures DecimalText(404) == "404"
  {
    assert DigitChar(4) == '4' && DigitChar(0) == '0';
    assert DecimalText(4) == "4";
    assert 40 / 10 == 4 && 40 % 10 == 0;
    assert DecimalText(40) == DecimalText(4) + "0";
    assert 404 / 10 == 40 && 404 % 10 == 4;
    assert DecimalText(404) == DecimalText(40) + "4";
  }

  /** A "not found" HTTPException prints as "404: " and its detail, so the
      500 made of it carries "Internal Server Error: 404: " and the detail. */
  lemma NotFoundText(detail: string)
    ensures ExceptionText(HttpException(404, detail)) == "404: " + detail
    ensures InternalServerError(HttpException(404, detail))
            == HttpError(500, "Internal Server Error: 404: " + detail)
  {
    DecimalTextOf404();
    assert "404" + ": " == "404: ";
    assert "Internal Server Error: " + ("404: " + detail) == "Internal Server Error: 404: " + detail;
  }

  // ---------------------------------------------------------------------
  // The endpoint
  // ---------------------------------------------------------------------

  /** The body of the `try` block of `match_users` (app.py:54-86). */
  method MatchUsersBody(transactions: seq<Transaction>, users: seq<UserRow>, transactionId: string,
                        spacy: EntityTagger, ner: TokenTagger, ratio: Ratio)
    returns (outcome: Result<MatchReport, Exception>)
    ensures ResolveName(transactions, transactionId, spacy, ner).Failure? ==>
              outcome == Failure(ResolveName(transactions, transactionId, spacy, ner).error)
    ensures ResolveName(transactions, transactionId, spacy, ner).Success? ==>
              && outcome.Success?
              && IsStableDescendingSort(outcome.value.users,
                   ScoreRows(users, ResolveName(transactions, transactionId, spacy, ner).value, ratio))
              && outcome.value.totalNumberOfMatches == |outcome.value.users|
              && outcome.value.totalNumberOfMatches == |StringNameRows(users)|
  {
    var found := FindTransaction(transactions, transactionId);
    if found.None? {
      return Failure(HttpException(404, TransactionNotFound));
    }
    var description := found.value;

    // The fallback chain: each stage runs only while the name is still "".
    var byRule := ExtractName(description);
    if byRule.Failure? {
      return Failure(byRule.error);
    }
    var name := byRule.value;
    if name == "" {
      var bySpacy := SpacyStage(spacy, description.s);
      if bySpacy.Failure? {
        return Failure(bySpacy.error);
      }
      name := bySpacy.value;
    }
    if name == "" {
      var byNer := TransformerStage(ner, description.s);
      if byNer.Failure? {
        return Failure(byNer.error);
      }
      name := byNer.value;
    }
    if name == "" {
      return Failure(HttpException(404, NameNotFound));
    }
    assert ResolveName(transactions, transactionId, spacy, ner) == Success(name);

    var matches := ScoreUsers(users, name, ratio);
    var ranked := RankMatches(matches);
    ScoreRowsCorrespondence(users, name, ratio);
    outcome := Success(MatchReport(ranked, |ranked|));
  }

  /** `match_users`: the body inside `try ... except Exception`. Every
      exception, the "not found" HTTPExceptions included, leaves as a 500. */
  method MatchUsers(transactions: seq<Transaction>, users: seq<UserRow>, transactionId: string,
                    spacy: EntityTagger, ner: TokenTagger, ratio: Ratio)
    returns (response: Response)
    ensures response.HttpError? ==> response.status == 500
    ensures response.HttpError? <==> ResolveName(transactions, transactionId, spacy, ner).Failure?
    ensures ResolveName(transactions, transactionId, spacy, ner).Failure? ==>
              response == InternalServerError(ResolveName(transactions, transactionId, spacy, ner).error)
    ensures FindTransaction(transactions, transactionId).None? ==>
              response == HttpError(500, "Internal Server Error: 404: " + TransactionNotFound)
    ensures ResolveName(transactions, transactionId, spacy, ner) == Failure(HttpException(404, NameNotFound)) ==>
              response == HttpError(500, "Internal Server Error: 404: " + NameNotFound)
    ensures ResolveName(transactions, transactionId, spacy, ner).Success? ==>
              && response.Ok?
              && IsStableDescendingSort(response.report.users,
                   ScoreRows(users, ResolveName(transactions, transactionId, spacy, ner).value, ratio))
              && response.report.totalNumberOfMatches == |response.report.users| == |StringNameRows(users)|
  {
    var outcome := MatchUsersBody(transactions, users, transactionId, spacy, ner, ratio);
    NotFoundText(TransactionNotFound);
    NotFoundText(NameNotFound);
    match outcome
    case Success(report) =>
      response := Ok(report);
    case Failure(e) =>
      response := InternalServerError(e);
  }

  /** The handler the code evidently intends: an HTTPException leaves with
      its own status and detail, and only other exceptions become a 500. */
  function IntendedErrorResponse(e: Exception): (r: Response)
    ensures r.HttpError?
    ensures e.HttpException? ==> r == HttpError(e.status, e.detail)
    ensures e.RuntimeError? ==> r == InternalServerError(e)
  {
    match e
    case HttpException(status, detail) => HttpError(status, detail)
    case RuntimeError(_) => InternalServerError(e)
  }

  /** `match_users` with HTTPExceptions re-raised unchanged: "transaction
      not found" and "name not found" reach the caller as 404s. */
  method MatchUsersIntended(transactions: seq<Transaction>, users: seq<UserRow>, transactionId: string,
                            spacy: EntityTagger, ner: TokenTagger, ratio: Ratio)
    returns (response: Response)
    ensures FindTransaction(transactions, transactionId).None? ==>
              response == HttpError(404, TransactionNotFound)
    ensures ResolveName(transactions, transactionId, spacy, ner) == Failure(HttpException(404, NameNotFound)) ==>
              response == HttpError(404, NameNotFound)
    ensures ResolveName(transactions, transactionId, spacy, ner).Failure? &&
            ResolveName(transactions, transactionId, spacy, ner).error.RuntimeError? ==>
              response == InternalServerError(ResolveName(transactions, transactionId, spacy, ner).error)
    ensures ResolveName(transactions, transactionId, spacy, ner).Success? ==>
              && response.Ok?
              && IsStableDescendingSort(response.report.users,
                   ScoreRows(users, ResolveName(transactions, transactionId, spacy, ner).value, ratio))
              && response.report.totalNumberOfMatches == |response.report.users| == |StringNameRows(users)|
  {
    var outcome := MatchUsersBody(transactions, users, transactionId, spacy, ner, ratio);
    match outcome
    case Success(report) =>
      response := Ok(report);
    case Failure(e) =>
      response := IntendedErrorResponse(e);
  }
}
