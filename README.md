# User matching for bank transactions: a Dafny model

The service takes a transaction id. It looks the transaction up in a
table, pulls the payer's name out of its free-text description, and
scores every user in a second table against that name with a fuzzy string
ratio. It returns the users ranked by score, best first, with their count
(`POST /match-users/` in `app.py`).

The name comes from a three-stage fallback:

1. A rule: take the text between the first `"from "` and the first
   `" for deel"`. Both are searched for in any letter case, and the slice
   is taken from the original text.
2. If that gives nothing, a statistical entity tagger: take the first
   PERSON entity.
3. If that also gives nothing, a token-level transformer tagger: take the
   words tagged `B-PER`/`I-PER`, joined by spaces.

If no stage finds a name, or the id is unknown, the code raises a 404.
However, the whole endpoint body sits inside `except Exception`, so every
exception leaves as a 500 whose detail quotes it.

The project is organised as follows:

- `outcomes.dfy` (`Outcomes`): `Option` and `Result`. Exceptions are
  modelled as `Failure` values.
- `text.dfy` (`Text`): the Python string operations the rule relies on.
  - `str.lower` (ASCII)
  - `in`
  - `str.find`
  - slicing with clamped bounds
  - `str.join`
  - `str.split` (as its inverse)
- `extraction.dfy` (`Extraction`): the rule, the two tagger stages and
  the fallback chain. Each tagger is a function parameter that returns
  either its entities or the text of the exception it raised.
- `ranking.dfy` (`Ranking`): the scoring loop (a method) and the stable
  descending sort. The sort is an in-place insertion sort on an array,
  proved to be the unique stable descending sort of its input.
- `endpoint.dfy` (`MatchEndpoint`): the transaction lookup, the endpoint
  body as a method, and the 500 wrapping. It also has the corrected
  handler described under Findings.

Table cells are `Cell = Str(s) | NonStr(typeName)`, because pandas reads
an empty cell as the float NaN. A non-string description makes `.lower()`
raise an AttributeError inside `extract_name`. That error is re-raised as
a RuntimeError and reaches the caller as a 500. A user whose name is not a
string is skipped.

## Model

| member | source | states |
|---|---|---|
| Text.Lower | app.py:123 | `str.lower` keeps the length and maps each character independently, so offsets found in the lower-cased copy index the original |
| Text.LowerSlice | app.py:123-127 | lower-casing commutes with slicing: the lower-cased slice of the description is the slice of the lower-cased description |
| Text.Contains | app.py:124 | `pat in s` holds exactly when `pat` occurs somewhere in `s`; always for the empty pattern, never for a pattern longer than `s` |
| Text.Find | app.py:125-126 | `str.find` returns -1 exactly when the pattern does not occur, and otherwise the offset of its first occurrence |
| Text.PySlice | app.py:127 | `s[i:j]` is `""` when `j <= i` or `i` is past the end, is `s[i..j]` when in range and `s[i..]` when only `j` is past the end, and is always a substring of `s` |
| Text.Join | app.py:148 | `sep.join(ws)` is as long as the words plus one separator between each two neighbours, starts with the first word, and has the separator right after it when there are two or more words |
| Text.JoinIsEmpty | app.py:148 | `" ".join(ws)` is empty exactly when `ws` is `[]` or `[""]` |
| Text.SplitJoinRoundTrip | app.py:148 | splitting `c.join(ws)` on `c` gives back `ws` when no word holds `c` |
| Extraction.ExtractName | app.py:121-130 | fails exactly on a non-string description, with the "Failed to extract name from description: ... has no attribute 'lower'" error; otherwise returns a substring of the description, which is non-empty only if both markers occur in the lower-cased text |
| Extraction.ExtractNameWithoutMarkers | app.py:124-128 | without both markers, in any letter case, the rule returns `""` |
| Extraction.ExtractNameBetweenFirstMarkers | app.py:123-127 | with both markers, the result is the original-case text from the end of the first `"from "` to the first `" for deel"`, and `""` when that `" for deel"` starts before the `"from "` ends |
| Extraction.ExtractsMarkedName | app.py:123-127 | prefix + "from " (any case) + name + " for deel" (any case) + suffix, with no earlier marker, yields exactly `name` in its own capitalisation |
| Extraction.OverlappingMarkersGiveNoName | app.py:125-127 | "from for deel", in any letter case, yields `""`: the first " for deel" starts inside the first "from " |
| Extraction.PaymentFromJohnSmith | app.py:121-127 | "Payment from John Smith for deel services" yields "John Smith" |
| Extraction.FirstPersonText | app.py:136-139 | the text of the first entity labelled PERSON, or `""` when there is none |
| Extraction.SpacyStage | app.py:133-141 | fails exactly when the tagger fails, with "Failed to extract name using spaCy: " and the tagger's message; otherwise it is the first PERSON text |
| Extraction.PersonWords | app.py:147 | at most one word per token, empty exactly when no token is tagged B-PER/I-PER, and every word comes from such a token |
| Extraction.PersonWordsAppend | app.py:147 | the filter distributes over concatenation of token sequences |
| Extraction.TransformerStage | app.py:144-150 | fails exactly when the tagger fails, with "Failed to extract name using DistilBERT: " and its message; the joined name is `""` exactly when the person words are `[]` or `[""]` |
| Extraction.TransformerStageRoundTrip | app.py:147-148 | the join loses nothing: splitting the name on spaces gives back the person words when none holds a space |
| Extraction.ExtractNameChain | app.py:60-70 | a name it returns is never empty; a non-string description fails with the rule's error |
| Extraction.ChainStopsAtRule | app.py:61-64 | a name found by the rule is final, whatever the taggers would say |
| Extraction.ChainStopsAtSpacy | app.py:63-67 | the statistical tagger is consulted only after the rule gave `""`, and a name it finds is final |
| Extraction.ChainStopsAtSpacyFailure | app.py:63-67 | when the rule gave `""` and the statistical tagger raises, the chain fails with "Failed to extract name using spaCy: " and the tagger's message, whatever the transformer would say |
| Extraction.ChainFallsToTransformer | app.py:66-70 | after two empty stages the transformer decides; an empty answer from it raises 404 "User name not found in transaction description" |
| Ranking.ScoreRows | app.py:72-77 | the `matches` list after visiting the rows: no longer than the table, and every entry is a string-named user's id with `fuzz.ratio(name, user name)` |
| Ranking.ScoreUsers | app.py:72-77 | the loop builds `ScoreRows` of the user table |
| Ranking.StringNameRows | app.py:73-75 | the strictly increasing positions of exactly the rows whose name is a string |
| Ranking.ScoreRowsCorrespondence | app.py:72-77 | the matches list has one entry per string-named user, in table order, and the k-th entry is that user's id with `fuzz.ratio(name, user name)` |
| Ranking.SortByMetricDescending | app.py:79 | sorts in place into a stable descending order by match metric: a permutation that keeps every group of equal metrics in its original order |
| Ranking.InsertIntoSortedPrefix | app.py:79 | one insertion pass permutes only `a[..i+1]`, leaves `a[i+1..]` unchanged, makes `a[..i+1]` sorted, and keeps the array a tie-stable rearrangement of the input |
| Ranking.RankMatches | app.py:79 | the ranked list is the stable descending sort of the matches and has the same length |
| Ranking.StableDescendingSortIsUnique | app.py:79 | two stable descending sorts of the same list are equal, so any stable sort (Python's included) gives this model's result |
| Ranking.SortedIsDeterminedByTieOrder | app.py:79 | two descending-sorted lists with the same order inside every group of equal metrics are equal |
| MatchEndpoint.FindTransaction | app.py:56-60 | nothing exactly when no row has the id; otherwise the description of the first row with it |
| MatchEndpoint.ResolveName | app.py:56-70 | the name the endpoint ranks against is never empty; an unknown id fails with 404 "Transaction not found", and a known one runs the fallback chain on the first matching row's description |
| MatchEndpoint.DecimalText | app.py:88 | `str(status)`: decimal digits with no leading zero that read back as the status |
| MatchEndpoint.ExceptionText | app.py:88 | `str(e)`: a RuntimeError gives its message; an HTTPException gives digits that read back as its status, then ": ", then its detail |
| MatchEndpoint.InternalServerError | app.py:87-88 | status 500 with a detail made of "Internal Server Error: " followed by `str(e)` |
| MatchEndpoint.NotFoundText | app.py:87-88 | a 404 with detail `d` prints as "404: d", so its 500 carries "Internal Server Error: 404: d" |
| MatchEndpoint.MatchUsersBody | app.py:53-86 | the try-block either raises the error the name resolution raises, or returns the stable descending sort of the scored users with a total equal to its length and to the number of string-named users |
| MatchEndpoint.MatchUsers | app.py:51-88 | every error is a 500, exactly when name resolution fails; an unknown id gives "Internal Server Error: 404: Transaction not found", no name gives "Internal Server Error: 404: User name not found in transaction description"; a success is the ranked report |
| MatchEndpoint.IntendedErrorResponse | app.py:87-88 | the intended handler: an HTTPException passes with its own status and detail, any other error becomes a 500 |
| MatchEndpoint.MatchUsersIntended | app.py:51-88 | with HTTPExceptions passed through, an unknown id and a missing name reach the caller as 404s; other errors give 500; a success is the ranked report |

## Left out

- `find_similar_transactions` (app.py:90-118): embedding similarity over
  tensors and floating point; it is not part of the user-matching path.
- CSV loading and the module-level cache (app.py:26-48): file I/O. The
  two tables are parameters of the endpoint.
- Loading the pretrained models (app.py:18-24) and running them: each tagger is a
  function parameter. It returns either its entities/tokens or the text
  of the exception it raised, and nothing else is assumed about it.
- `fuzz.ratio` internals: a function parameter `(string, string) -> int`,
  with no property assumed.
- FastAPI routing, dependency injection, `response_model` coercion of the
  result dictionary, and the uvicorn entry point: framework behaviour,
  not logic of this code.
- `main.py` is not part of this model.
- Text.Lower: models `str.lower` on ASCII letters only. Python's full
  Unicode lower-casing can change a string's length (`'İ'` becomes two
  code points). The source's use of offsets from the lower-cased copy
  assumes no such character occurs.
- MatchEndpoint.ExceptionText: `str()` of an HTTPException is modelled as
  `"<status>: <detail>"`, the format of current Starlette releases. Other
  releases print differently.
- Ranking.ScoreUsers: the `isinstance(transaction_user_name, str)` test
  is always true on this path, so the model does not carry it. Ids are
  modelled as strings.
- Ranking.RankMatches: Python sorts the list in place with Timsort. The
  model copies the list into an array and insertion-sorts it.
  `StableDescendingSortIsUnique` shows that both give the same list.
- Ranking.ScoreRows: its own contract bounds the length and says what
  each entry is. The one-to-one, in-order correspondence with the
  string-named rows is stated by `ScoreRowsCorrespondence`.
- MatchEndpoint.FindTransaction: transaction ids are compared as strings,
  which assumes pandas read the `id` column as text. When the column
  holds only numbers, pandas infers a numeric dtype. Comparing it with the
  `str` query parameter (app.py:56) then selects no row, and every request
  ends in the 500 "Internal Server Error: 404: Transaction not found". The
  model does not capture that dtype inference.
- Extraction.TransformerStage: sub-word pieces (`##`-prefixed tokens) are
  joined as the tagger reports them. No merging is modelled, because the
  source does none.

## Findings

| source | as written | input that shows it | evidently intended | confidence | as-written member | corrected member |
|---|---|---|---|---|---|---|
| app.py:87-88 | `except Exception` also catches the `HTTPException(404)` raised at app.py:58 and app.py:70, so it turns into a 500 with detail "Internal Server Error: 404: Transaction not found" | a transaction id that no row of the transaction table has | the 404 "Transaction not found" (and likewise "User name not found in transaction description") reaches the caller | not executed; high | MatchEndpoint.MatchUsers | MatchEndpoint.MatchUsersIntended |
