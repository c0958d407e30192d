# Brickfront, modelled in Dafny

Brickfront is a small Python wrapper around the Brickset web API (version 2).
This project models the core of that wrapper:

- **Set records** (`brickfront/build.py`). A `Build` reads its fields from fixed child positions of an XML record. `setID` and `variant` go through `int()`. `pieces` and `minifigs` are `None` when the text is missing. `released` is looked up in a table of lower-cased tokens, and unknown text is passed through. With a user hash, child 20 of the caller's element is deleted in place before any field is read.
- **The legacy set record** (`build.py`). Every field is raw text, and `released` goes through a strict two-token table.
- **Reviews** (`brickfront/review.py`). Ten children are read by position. Five of them are integer ratings with no guard, and one is a case-sensitive `HTML` token.
- **The client** (`brickfront/client.py`). `Client.getSets` does the following in order:
  1. Accepts one of ten sort keys.
  2. Renders thirteen `key=value` pairs in a fixed order, joined with `&` and not escaped.
  3. Requests `http://brickset.com/api/v2.asmx/getSets?…`.
  4. Turns a status other than 200 into `InvalidRequest` with a message cut from the body.
  5. Otherwise, decodes each child of the XML root as a `Build`.

An XML element is modelled as a sequence of leaf texts, `seq<Option<string>>`, where `None` stands for a missing `.text`. Python's exceptions become the `Errors.Error` datatype. Each decoder is a function returning `Result`, and its field reads are chained with `:-` in source order, so the first failing read decides which error is raised. The caller's list that `Build.__init__` mutates is the class `Builds.RecordElement`. `Builds.NewBuild` runs the constructor against it.

Modules (one per source file, plus shared helpers):

- `Wrappers`: `Option`.
- `Errors`: the error kinds and `Result`.
- `PyText`: Python's element indexing, `str()`, ASCII `lower()`, `int()` on decimal numerals, `'&'.join`/`split`, and `split(sep)[0]`.
- `Builds`: `brickfront/build.py`.
- `LegacyBuilds`: `build.py`.
- `Reviews`: `brickfront/review.py`.
- `ApiClient`: `brickfront/client.py`.

## Model

| member | source | states |
|---|---|---|
| Builds.DecodeSet | brickfront/build.py:26-66 | The constructor's outcome as a Result, with and without a hash. It has no contract of its own and is characterised by NoHashKeepsElement, HashShiftsFields, DecodeWithHashSucceeds and ShortElementFails, and tied to the stateful run by NewBuild. |
| Builds.DecodeFields | brickfront/build.py:33-66 | The field reads in source order, once any deletion is done. It has no contract of its own and is characterised by DecodeFieldsAt, DecodeFieldsSucceeds and UnreadChildrenIgnored. |
| Builds.LeavesAfter | brickfront/build.py:30-31 | The caller's list after the constructor. It has no contract of its own and is characterised by NoHashKeepsElement, HashShiftsFields and NewBuild. |
| Builds.NewBuild | brickfront/build.py:26-66 | The constructor run on the caller's element. The element loses child 20 in place when a hash is given and the child exists. This holds also when decoding then fails. The result is `DecodeSet` of the original element, and a record's `raw` is the shortened contents. |
| Builds.RecordElement.DeleteAt | brickfront/build.py:31 | `del data[i]`: removes exactly child i when it exists. Otherwise it reports failure (an IndexError) and leaves the list unchanged. |
| Builds.DecodeFieldsAt | brickfront/build.py:33-66 | Without a hash, every field of a decoded record comes from its fixed child: setID 0 and variant 2 through `int()`, pieces 8 and minifigs 9 through the guarded `int()`, released 16 through the token table, text fields 1, 3–7, 14, 15, 23–26 and 29. `raw` is the element. |
| Builds.NoHashKeepsElement | brickfront/build.py:30-31 | An empty hash leaves the element untouched and decodes it directly. |
| Builds.HashShiftsFields | brickfront/build.py:28-55 | With a hash, `raw` is the element minus child 20. Children below 20 keep their index and later ones move down by one. So the prices come from original children 24–27 and the rating from 30, while the fields below 20 are unchanged. |
| Builds.DecodeFieldsSucceeds | brickfront/build.py:33-66 | Decoding without a hash succeeds iff there are at least 30 children, children 0 and 2 are numerals, and children 8 and 9 are numerals or missing. |
| Builds.DecodeWithHashSucceeds | brickfront/build.py:30-66 | With a hash the same holds with at least 31 children. |
| Builds.ShortElementFails | brickfront/build.py:31-53 | Fewer than 30 children (31 with a hash) always fail, and it is an IndexError when the coerced children that exist are well formed. |
| Builds.GuardedInt | brickfront/build.py:41-46 | `int()` with only TypeError caught. It has no contract of its own and is characterised by GuardedIntOutcome. |
| Builds.GuardedIntOutcome | brickfront/build.py:41-46 | `pieces`/`minifigs` are None exactly when the text is missing, and the parsed number for a numeral. A malformed numeral is still a ValueError, since only TypeError is caught. |
| Builds.ReleasedOf | brickfront/build.py:56-66 | The `released` lookup with its KeyError fallback. It has no contract of its own and is characterised by ReleasedTokenTable, ReleasedIgnoresCase and ReleasedExamples. |
| Builds.ReleasedTokenTable | brickfront/build.py:56-66 | `released` of the lower-cased `str()` of the text: `true`/`1` give True and `false`/`0`/`none` give False. A missing text gives False. Any other text is passed through unchanged. |
| Builds.ReleasedIgnoresCase | brickfront/build.py:63 | Two texts equal up to letter case give the same flag. |
| Builds.ReleasedExamples | brickfront/build.py:56-66 | `TRUE` gives True, `None` gives False, `yes` is passed through. |
| Builds.UnreadChildrenIgnored | brickfront/build.py:33-66 | Children 10–13, 17–22, 27–28 and from 30 on change nothing but `raw`. |
| LegacyBuilds.DecodeLegacy | build.py:26-47 | The legacy constructor as a Result. It has no contract of its own and is characterised by LegacySucceeds, LegacyFieldsAt, LegacyErrors and LegacyUnreadIgnored. |
| LegacyBuilds.StrictReleased | build.py:42 | The strict two-token lookup. It has no contract of its own and is characterised by StrictReleasedTable and StrictReleasedRejects. |
| LegacyBuilds.LegacyFieldsAt | build.py:28-47 | Every field is the unconverted text of its fixed child (0–9, 14, 15, 23–26, 29). `released` is True exactly for `true`. `raw` is the input unmodified. |
| LegacyBuilds.LegacySucceeds | build.py:30-47 | Decoding succeeds iff there are at least 30 children and child 16 is exactly `true` or `0`. |
| LegacyBuilds.LegacyErrors | build.py:30-47 | Up to 16 children give an IndexError. A bad `released` text gives a KeyError. Otherwise fewer than 30 children give an IndexError. |
| LegacyBuilds.StrictReleasedTable | build.py:42 | Only `true` (True) and `0` (False) are accepted, and every other text, missing included, is a KeyError. |
| LegacyBuilds.StrictReleasedRejects | build.py:42 | `false`, `1`, `TRUE` and a missing text are rejected. |
| LegacyBuilds.LegacyUnreadIgnored | build.py:30-47 | Children 10–13, 17–22, 27–28 and from 30 on change nothing but `raw`. |
| Reviews.DecodeReview | brickfront/review.py:17-34 | The review constructor as a Result. It has no contract of its own and is characterised by ReviewFieldsAt, ReviewSucceeds, ReviewRatingErrors, ReviewIgnoresTail and ShortReviewFails. |
| Reviews.HtmlFlag | brickfront/review.py:27-34 | The six-token `HTML` lookup. It has no contract of its own and is characterised by HtmlTokenTable and HtmlRejects. |
| Reviews.ReviewFieldsAt | brickfront/review.py:17-34 | author, datePosted, title and review are the texts of children 0, 1, 7 and 8. The five ratings are `int()` of children 2–6. HTML is the token of child 9. |
| Reviews.ReviewSucceeds | brickfront/review.py:17-34 | Decoding succeeds iff there are at least 10 children, children 2–6 are numerals and child 9 is a known token. |
| Reviews.ReviewRatingErrors | brickfront/review.py:20-24 | For any of the five ratings (children 2–6), when the ratings before it are well formed: a missing text is a TypeError and a malformed one a ValueError. |
| Reviews.HtmlTokenTable | brickfront/review.py:27-34 | `true`/`True`/`1` give True, `false`/`False`/`0` give False, and anything else is a KeyError. |
| Reviews.HtmlRejects | brickfront/review.py:27-34 | The table is case-sensitive: `TRUE` and a missing text raise. |
| Reviews.ReviewIgnoresTail | brickfront/review.py:18-34 | Children past index 9 do not affect the outcome. |
| Reviews.ShortReviewFails | brickfront/review.py:18-34 | Fewer than 10 children always fail, and it is an IndexError when the present ratings are well formed. |
| ApiClient.Client.GetSets | brickfront/client.py:23-78 | An unknown sort key gives InvalidOrderType before any request. Otherwise the result is the handling of the response to a GET of the `getSets` URL for these arguments. The rendering loop is proved to build exactly the rendered query. |
| ApiClient.Client.constructor | brickfront/client.py:18-21 | The client keeps the API key it is given. |
| ApiClient.ValidOrderBy | brickfront/client.py:40-43 | Membership in the ten sort keys. It has no contract of its own and is characterised by OrderByChoices and GetSets. |
| ApiClient.OrderByChoices | brickfront/client.py:33-43 | `Number` is accepted and there are ten keys. Names the documentation offers beyond them (`Subtheme`, `Name`, `Random`, the `DESC` forms) and a lower-case `number` are rejected. |
| ApiClient.QueryValues | brickfront/client.py:47-61 | The `values` dictionary in insertion order. It has no contract of its own and is characterised by QueryLayout and QueryKeyOrder. |
| ApiClient.Format | brickfront/client.py:66 | `'{}'.format` of a string or an integer value. It has no contract of its own and is characterised by QueryLayout, DefaultCall and FormatPlain. |
| ApiClient.Rendered | brickfront/client.py:64-67 | The list the rendering loop builds. It has no contract of its own and is characterised by QueryLayout, QueryKeyOrder and the loop invariant of GetSets. |
| ApiClient.FormatPlain | brickfront/client.py:66 | A formatted integer, or a string without `&`, holds no `&`. |
| ApiClient.QueryLayout | brickfront/client.py:47-67 | The query has thirteen fields. The caller's values appear verbatim after their keys, the user fields are empty, and the page is 1. |
| ApiClient.QueryKeyOrder | brickfront/client.py:47-67 | Field i is the i-th of the thirteen keys in dictionary order, `=`, and the i-th value. |
| ApiClient.GetURL | brickfront/client.py:16-21 | The `_getURL` lambda. It has no contract of its own and is characterised by URLLayout. |
| ApiClient.SetsURL | brickfront/client.py:70 | The URL requested by `getSets`. It has no contract of its own and is characterised by URLLayout, QueryFields and QueryRoundTrip. |
| ApiClient.URLLayout | brickfront/client.py:16-21 | The URL is `http://brickset.com/api/v2.asmx/getSets?` followed by the fields joined with `&`. |
| ApiClient.QueryFields | brickfront/client.py:64-70 | Splitting the query at `&` gives back the thirteen fields when no value holds `&`. In general it gives one more field per `&` in the values, since nothing is escaped. |
| ApiClient.QueryInjection | brickfront/client.py:47-70 | A search term holding `&` makes the server see more than thirteen fields. |
| ApiClient.QueryRoundTrip | brickfront/client.py:47-70 | When no string argument holds `&` (integers never do), splitting the query at `&` gives back exactly the thirteen fields. |
| ApiClient.DefaultCall | brickfront/client.py:23-67 | A call with every keyword at its default passes the sort-key check and sends empty search fields, `year=`, `orderBy=Number` and `pageSize=20`. |
| ApiClient.ErrorMessage | brickfront/client.py:74 | The message cut from a failed response. It has no contract of its own and is characterised by ErrorMessageDelimited, ErrorMessageKeepsCarriageReturn and ErrorMessageStopsAtBackslashR. |
| ApiClient.ErrorMessageDelimited | brickfront/client.py:73-75 | The message never contains a backslash-`r`. When no backslash-`r` starts at index 0 or 1, the message is the text after the first two characters, up to the first backslash-`r` or the end. |
| ApiClient.ErrorMessageKeepsCarriageReturn | brickfront/client.py:74 | A real carriage return does not end the message. |
| ApiClient.ErrorMessageStopsAtBackslashR | brickfront/client.py:74 | The two characters backslash, `r` end it, and a body shorter than two characters gives an empty message. |
| ApiClient.Receive | brickfront/client.py:73-78 | The handling of the response. It has no contract of its own and is characterised by ReceiveStatus, ReceiveOneBuildPerChild and DecodeAll. |
| ApiClient.ReceiveStatus | brickfront/client.py:73-78 | A status other than 200 always fails with InvalidRequest and the extracted message. An empty root gives an empty list. Success implies status 200. |
| ApiClient.DecodeAll | brickfront/client.py:78 | The list comprehension succeeds iff every child decodes. Then there is one record per child, in order, each the child decoded without a hash. |
| ApiClient.DecodeAllError | brickfront/client.py:78 | When the list comprehension fails, its error is that of the first child that fails to decode, and every child before it decodes. |
| ApiClient.ReceiveOneBuildPerChild | brickfront/client.py:77-78 | On success there is one record per parsed child, in document order, and each record's `raw` is its child. |
| PyText.Int | brickfront/build.py:33 | `int()` of an element text: TypeError for a missing text, ValueError for a non-numeral, the value otherwise. The outcome is stated by IntOutcome, and ShowNatRoundTrip gives its inverse. |
| PyText.IntOutcome | brickfront/review.py:20-24 | `int()` succeeds exactly on a numeral with a non-negative value. A missing text is a TypeError and anything else a ValueError. |
| PyText.Lower | brickfront/build.py:63 | ASCII `lower()`. It has no contract of its own and is characterised by LowerNormalizes and LowerOfMissing. |
| PyText.LowerOfMissing | brickfront/build.py:63 | `str(None).lower()` is `none`. |
| PyText.ShowNatRoundTrip | brickfront/client.py:66 | Formatting a natural number with `'{}'` gives a numeral that `int()` reads back as the same number. |
| PyText.SplitJoin | brickfront/client.py:21 | Splitting a `&`-join at `&` gives back the parts, when no part holds `&`. |
| PyText.BeforeFirst | brickfront/client.py:74 | `split(sep)[0]` is a prefix with no occurrence of the separator before its end. It ends at the end of the text or at the first occurrence. |
| PyText.LowerNormalizes | brickfront/build.py:63 | `lower()` leaves no upper-case letter and is idempotent. |

## Left out

- The HTTP GET (`requests.get`) is a parameter `get` of `Client.GetSets`. The XML parse (`ElementTree.fromstring`) is a parameter `parse`, and a body that is not XML becomes `ParseError`. The network and the parser themselves are not part of this model.
- Builds.DecodeFields: `rating` keeps the child's text (None when missing) instead of the `float()` of it. A malformed rating that would raise ValueError is not modelled, because float parsing is outside this model.
- PyText.Int: `int()` accepts decimal digits only. Leading or trailing whitespace, a sign, underscores and non-ASCII Unicode decimal digits (such as Arabic-Indic digits), which Python also accepts, are treated as malformed (ValueError).
- PyText.Lower: ASCII letters only. Python's full Unicode case mapping is not modelled.
- ApiClient.Format: an integer `year` or `pageSize` is printed as Python does. Other Python values such as floats or booleans are not accepted by the model.
- `returned.status_code is not 200` is modelled as `!= 200`; CPython's small-integer caching makes the two agree.
- The query order is the insertion order of the `values` dictionary, as Python 3.7 and later guarantee.
- `raw` of a record is the element's contents once the constructor has finished, not a live alias that later changes to the caller's list would also show.
- brickfront/client.py:3 imports `InvalidOrderType` from a module that does not define it, so the package fails at import. The model keeps the error as it is evidently intended.
- brickfront/errors.py and errors.py hold only empty exception classes. The ones the core raises are variants of `Errors.Error`. `InvalidApiKey`, `InvalidLoginCredentials` and `InvalidSetID` are never raised by the core and are not modelled.
- setup.py is packaging metadata and is not part of this model. So are authentication and the other API endpoints, which do not appear in the modelled code.
- The docstring of `getSets` (brickfront/client.py:33) lists further sort keys and a `DESC` suffix, but the code accepts only the ten keys, and the model follows the code. Only status 200 counts as success: any other status, 2xx and 3xx included, raises InvalidRequest.
