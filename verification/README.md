# elympics-api in Dafny

A model of the Java client for the Elympics highscore service
(`games.dollarone.elympics`), with proofs about it. The model covers four parts:

- **`Requester`**: a builder that collects request parameters and headers, then sends the request.
  - It sends parameters as a URL query string (GET/DELETE) or as a `key=value&…` form body (other verbs).
  - It retries while the API answers "rate-limited" (403 with `Retry-After`).
  - It parses the answer: 304 gives null, 204 gives an empty array, and failures are wrapped or passed through.
  - It follows `rel="next"` links of paged array answers and concatenates the pages.
- **`Elympics`**: the API root. It holds the base URL (one trailing slash removed), the key and the connector. It resolves request paths and provides the `getHighscores` and `submitHighscore` façade calls.
- **`ElympicsBuilder`**: a last-write-wins configuration object that creates the root.
- **`ElympicsHighscore`**: a name and an arbitrary-precision score. It is ordered by score, highest first.

The HTTP transport is a scripted collaborator. A `Transport` object hands out, connection after connection, either the exception `connect` throws or the server's answer. An answer holds:

- the status, or the exception reading it throws;
- header lookups and the content encoding;
- the body text, or the exception reading it throws;
- the error stream.

JSON binding is a `Codec` supplied by the caller. Java exceptions are values of `Wire.Failure`.

Module layout:

| file | contents |
|---|---|
| `Wire.dfy` | shared value types: `Option`, `Result`, bytes, `Failure`, the scripted `Response` and `Exchange`, and the open connection `Conn` |
| `UrlEncoding.dfy` | `URLEncoder.encode(…, "UTF-8")`, the application/x-www-form-urlencoded encoding of section 17.13.4.1 of HTML 4.01, over UTF-8 (RFC 3629); an independent decoder and the round trip |
| `Params.dfy` | parameter entries and header slots; `toString` of the stored values; `LinkedHashMap.put`; the query string and the form body, plus lemmas that read them back |
| `LinkHeader.dfy` | the `Matcher.find()` semantics of `.*<(.*)>; rel="next"`, with a proof that the line scan selects the match `find()` reports |
| `Protocol.dfy` | `_to` as functions over the script (`Call` → `Loop` → `Attempt` → `Page` → `Call`), and the properties of the request cycle |
| `Requester.dfy` | the imperative `Requester` class, the raw request-body stream and the transport; `To` is proved to compute `Protocol.Call` |
| `Root.dfy` | the `Elympics` class and URL resolution |
| `Builder.dfy` | the `ElympicsBuilder` class |
| `Highscores.dfy` | `ElympicsHighscore` and its comparator |
| `Api.dfy` | `connect`, `getHighscores` and the `submitHighscore` overloads, and what their requests look like |

Where the library's documented behaviour and its code disagree, the model follows the code:

- A null score is compared as a score of 0, not as the lowest score. It sorts after positive scores and before negative ones (`Highscores.NullRanksAsZero`).
- `set(k, v)` overwrites only the FIRST entry with key `k`. Later entries with the same key, added with `with`, survive.
- `set(k, null)` on an existing key stores null. The null is not dropped, and a later query string throws `NullPointerException` on it (`Params.QueryUrl`).
- A POST with no parameters and no raw body does not send an empty body. `deleteCharAt(-1)` throws, and the exception is not retried (`Api.EmptyFormFails`).

## Model

| member | source | states |
|---|---|---|
| UrlEncoding.Utf8 | src/main/java/games/dollarone/elympics/Requester.java:202 | a character is 1 to 4 UTF-8 bytes; exactly one byte, its own code, for ASCII |
| UrlEncoding.Utf8String | src/main/java/games/dollarone/elympics/Requester.java:292 | `getBytes("UTF-8")` gives at least one byte per character, exactly one per character for ASCII text |
| UrlEncoding.Percent | src/main/java/games/dollarone/elympics/Requester.java:202 | each byte becomes three characters `%XY` |
| UrlEncoding.Encode | src/main/java/games/dollarone/elympics/Requester.java:202 | the encoded value holds only unreserved characters, `+` and `%`, so never `&`, `=`, `?` or `#`, and is no shorter than the text |
| UrlEncoding.PercentAlphabet | src/main/java/games/dollarone/elympics/Requester.java:202 | `%XY` escapes use only `%` and upper-case hexadecimal digits |
| UrlEncoding.Utf8Decodes | src/main/java/games/dollarone/elympics/Requester.java:202 | the lead byte announces the sequence length and the bytes decode to the character |
| UrlEncoding.ReadPercentOf | src/main/java/games/dollarone/elympics/Requester.java:202 | a run of `%XY` escapes reads back as the bytes it was made from |
| UrlEncoding.DecodeChar | src/main/java/games/dollarone/elympics/Requester.java:202 | one encoded character decodes back to that character, whatever follows |
| UrlEncoding.DecodeEncode | src/main/java/games/dollarone/elympics/Requester.java:202 | round trip: decoding the encoding of any text gives the text |
| UrlEncoding.EncodeInjective | src/main/java/games/dollarone/elympics/Requester.java:202 | different values never encode alike |
| Params.NatText | src/main/java/games/dollarone/elympics/Requester.java:202 | decimal text of a natural number: at least one digit, no leading zero |
| Params.NatTextValue | src/main/java/games/dollarone/elympics/Requester.java:202 | the digits of `n` are worth `n` |
| Params.SignedDigits | src/main/java/games/dollarone/elympics/Requester.java:202 | a minus sign for negatives, then digits worth the magnitude, parse back as the number |
| Params.Text | src/main/java/games/dollarone/elympics/Requester.java:202 | `toString` of a stored value; what the text holds is stated by `Params.TextReadsBack` |
| Params.TextReadsBack | src/main/java/games/dollarone/elympics/Requester.java:202 | a number's text parses back to the number, a string is itself, a collection's text is bracketed and a map's braced |
| Params.ValueOf | src/main/java/games/dollarone/elympics/Requester.java:289 | `StringBuilder.append` of a value: `null` for a null value, the string itself for a string |
| Params.IntTextRoundTrip | src/main/java/games/dollarone/elympics/Requester.java:202 | `toString` of an integer or `BigInteger` score parses back to the same number |
| Params.EnumText | src/main/java/games/dollarone/elympics/Requester.java:110-114 | same length; each character lower-cased, `_` replaced by `-`; no `_` or upper-case letter remains |
| Params.FirstIndex | src/main/java/games/dollarone/elympics/Requester.java:143-151 | the entry `set` overwrites is the first with the key; `None` exactly when no entry has it |
| Params.SlotIndex | src/main/java/games/dollarone/elympics/Requester.java:72-74 | position of a header name in the map, `None` exactly when absent |
| Params.Put | src/main/java/games/dollarone/elympics/Requester.java:72-74 | `LinkedHashMap.put`: a known name keeps its position and takes the new value, everything else unchanged; a new name goes last; names stay distinct |
| Params.Present | src/main/java/games/dollarone/elympics/Requester.java:319-323 | no more headers are sent than the map holds; their order is stated by `Params.PresentInOrder` |
| Params.PresentInOrder | src/main/java/games/dollarone/elympics/Requester.java:319-323 | insertion order: each header with a value is sent at its rank, and of two such headers the earlier is sent first |
| Params.PresentHeaders | src/main/java/games/dollarone/elympics/Requester.java:319-323 | the headers sent are exactly the map entries with a non-null value |
| Params.QueryPieces | src/main/java/games/dollarone/elympics/Requester.java:200-206 | one `key=encode(value)` piece per parameter, in insertion order, key not encoded |
| Params.FormPieces | src/main/java/games/dollarone/elympics/Requester.java:288-290 | one `key=value` piece per parameter, in insertion order, value not encoded, null written as `null` |
| Params.TerminatedDropLast | src/main/java/games/dollarone/elympics/Requester.java:287-291 | removing the last character of `p1&p2&…&` leaves the pieces joined by `&` |
| Params.QueryPieceRead | src/main/java/games/dollarone/elympics/Requester.java:202 | a query piece holds no `&` and splits back into its key and its encoded value |
| Params.QueryFields | src/main/java/games/dollarone/elympics/Requester.java:200-206 | the joined pieces split at `&` and `=` give every key and, decoded, every value, in order |
| Params.QueryUrl | src/main/java/games/dollarone/elympics/Requester.java:196-207 | fails with `NullPointerException` exactly when some parameter is null; otherwise the tail, then `&` if it has `?` and `?` otherwise; read back by `Params.QueryReadsBack` |
| Params.QueryReadsBack | src/main/java/games/dollarone/elympics/Requester.java:196-207 | the URL is the tail, then `&` if the tail has `?` and `?` otherwise, then a query a server reads back as exactly the parameters |
| Params.FormBody | src/main/java/games/dollarone/elympics/Requester.java:286-291 | throws `StringIndexOutOfBoundsException(-1)` exactly when there are no parameters; read back by `Params.FormReadsBack` |
| Params.FormReadsBack | src/main/java/games/dollarone/elympics/Requester.java:286-292 | the form body reads back as the parameters when no key holds `&` or `=` and no value holds `&` |
| Params.FormBodyAmbiguous | src/main/java/games/dollarone/elympics/Requester.java:289 | values are not encoded: two different parameter lists give the same body |
| LinkHeader.LineEnd | src/main/java/games/dollarone/elympics/Requester.java:219 | `.` stops at the first line terminator |
| LinkHeader.LastMarker | src/main/java/games/dollarone/elympics/Requester.java:219 | the last `>; rel="next"` in a range, or none in it |
| LinkHeader.LastOpen | src/main/java/games/dollarone/elympics/Requester.java:219 | the last `<` in a range, or none in it |
| LinkHeader.OccursFrom | src/main/java/games/dollarone/elympics/Requester.java:218 | true exactly when the text occurs at the position or later |
| LinkHeader.Contains | src/main/java/games/dollarone/elympics/Requester.java:218 | `String.contains`: true exactly when the text occurs somewhere |
| LinkHeader.MatchInLine | src/main/java/games/dollarone/elympics/Requester.java:219 | a match lies inside one line |
| LinkHeader.LaterStart | src/main/java/games/dollarone/elympics/Requester.java:219 | a match from inside a line also matches from the line's start |
| LinkHeader.NoMatchInLine | src/main/java/games/dollarone/elympics/Requester.java:219-221 | when the line has no marker after a `<`, no match starts in it |
| LinkHeader.Greedy | src/main/java/games/dollarone/elympics/Requester.java:219-221 | the last `<` before the last marker is the longest prefix, then the longest group |
| LinkHeader.LineFound | src/main/java/games/dollarone/elympics/Requester.java:219-221 | a match in the current line is the one `find()` reports |
| LinkHeader.LineSkipped | src/main/java/games/dollarone/elympics/Requester.java:219-221 | without a match in the line, the search resumes after it and nothing matched up to its end |
| LinkHeader.NoMatchPastEnd | src/main/java/games/dollarone/elympics/Requester.java:219-221 | no match starts beyond the end of the text |
| LinkHeader.FindFromSelects | src/main/java/games/dollarone/elympics/Requester.java:219-222 | the scan finds the first-starting, greediest match, or nothing exactly when there is no match |
| LinkHeader.FindFromMarker | src/main/java/games/dollarone/elympics/Requester.java:219-222 | what the scan reports is a `<` followed later by the marker |
| LinkHeader.NextLink | src/main/java/games/dollarone/elympics/Requester.java:219-221 | group 1 of the first `find()` of `.*<(.*)>; rel="next"`, as proved by `LinkHeader.NextLinkSelects` |
| LinkHeader.NextLinkSelects | src/main/java/games/dollarone/elympics/Requester.java:219-222 | the next link is group 1 of exactly the match `find()` reports, and none iff the pattern matches nowhere |
| LinkHeader.MatchImpliesContains | src/main/java/games/dollarone/elympics/Requester.java:218-221 | the `contains("rel=\"next\"")` test never rejects a header the pattern matches |
| Root.StripTrailingSlash | src/main/java/games/dollarone/elympics/Elympics.java:37 | one trailing `/` removed, otherwise unchanged |
| Root.StripsOnlyOne | src/main/java/games/dollarone/elympics/Elympics.java:37 | an endpoint ending in `//` keeps one slash |
| Root.ApiUrl | src/main/java/games/dollarone/elympics/Elympics.java:60-66 | a path starting with `/` is appended to the base; anything else is used verbatim |
| Root.SingleSlashJunction | src/main/java/games/dollarone/elympics/Elympics.java:37-62 | with an endpoint not ending in `//`, a path joins the base with exactly one slash |
| Root.Elympics.constructor | src/main/java/games/dollarone/elympics/Elympics.java:36-41 | base without one trailing slash; the key as given; a null connector keeps the default |
| Root.Elympics.SetConnector | src/main/java/games/dollarone/elympics/Elympics.java:52-54 | replaces the connector, also with null |
| Root.Elympics.GetConnector | src/main/java/games/dollarone/elympics/Elympics.java:56-58 | returns the current connector |
| Builder.ElympicsBuilder.constructor | src/main/java/games/dollarone/elympics/ElympicsBuilder.java:11-18 | production endpoint, null key, null connector |
| Builder.ElympicsBuilder.WithEndpoint | src/main/java/games/dollarone/elympics/ElympicsBuilder.java:20-23 | sets the endpoint only; returns the same builder |
| Builder.ElympicsBuilder.WithKey | src/main/java/games/dollarone/elympics/ElympicsBuilder.java:25-28 | sets the key only; returns the same builder |
| Builder.ElympicsBuilder.WithConnector | src/main/java/games/dollarone/elympics/ElympicsBuilder.java:30-33 | sets the connector only; returns the same builder |
| Builder.ElympicsBuilder.WithProxy | src/main/java/games/dollarone/elympics/ElympicsBuilder.java:41-43 | the connector becomes a JRE connector through the proxy; endpoint and key unchanged |
| Builder.ElympicsBuilder.Build | src/main/java/games/dollarone/elympics/ElympicsBuilder.java:45-47 | a new root from endpoint, key and connector, as its constructor makes it |
| Highscores.Compare | src/main/java/games/dollarone/elympics/ElympicsHighscore.java:37 | `BigInteger.compareTo`: -1, 0 or 1, with the sign of the difference |
| Highscores.CompareTo | src/main/java/games/dollarone/elympics/ElympicsHighscore.java:31-44 | compares the other's score with this one's, null as 0; negative exactly when this score is higher |
| Highscores.Antisymmetric | src/main/java/games/dollarone/elympics/ElympicsHighscore.java:31-44 | swapping the arguments negates the result |
| Highscores.Transitive | src/main/java/games/dollarone/elympics/ElympicsHighscore.java:31-44 | the ordering is transitive |
| Highscores.Reflexive | src/main/java/games/dollarone/elympics/ElympicsHighscore.java:31-44 | every highscore compares equal to itself |
| Highscores.HigherFirst | src/main/java/games/dollarone/elympics/ElympicsHighscore.java:41-42 | for non-null scores, the higher score comes first; equal scores compare as 0 |
| Highscores.NullRanksAsZero | src/main/java/games/dollarone/elympics/ElympicsHighscore.java:33-40 | a null score sorts after positive scores, before negative ones, level with 0 |
| Highscores.IgnoresNames | src/main/java/games/dollarone/elympics/ElympicsHighscore.java:31-44 | equal scores compare as 0 whatever the names: the order is not consistent with equality |
| Highscores.OfLong | src/main/java/games/dollarone/elympics/ElympicsHighscore.java:15 | the `long` constructor; its scores compare as numbers by `Highscores.LongScores` |
| Highscores.LongScores | src/main/java/games/dollarone/elympics/ElympicsHighscore.java:15-17 | a `long` score compares as the number it is |
| Protocol.RequestHeaders | src/main/java/games/dollarone/elympics/Requester.java:311-327 | the `key` header first when there is a key; `Accept-Encoding: gzip` last |
| Protocol.CallerHeaders | src/main/java/games/dollarone/elympics/Requester.java:319-323 | between them exactly the caller's headers that have a value, each at its rank in that segment, in insertion order |
| Protocol.Parse | src/main/java/games/dollarone/elympics/Requester.java:360-395 | checked exceptions leave as `FileNotFoundException` or `HttpException`; an array target gets an array or null; no target gets null |
| Protocol.StatusShortcuts | src/main/java/games/dollarone/elympics/Requester.java:367-373 | 304 gives null whatever the body; 204 gives an array target an empty array whatever the body |
| Protocol.DiscardReadsBody | src/main/java/games/dollarone/elympics/Requester.java:375-385 | with no type and no instance the body is still read: a read failure or bad encoding is an error, otherwise null |
| Protocol.UnexpectedEncoding | src/main/java/games/dollarone/elympics/Requester.java:400-406 | an encoding other than none or `gzip` is refused with an unchecked exception |
| Protocol.GzipTransparent | src/main/java/games/dollarone/elympics/Requester.java:400-406 | states the transport abstraction: the scripted body is already decompressed, so a `gzip` answer parses as the same text with no encoding; a corrupt gzip stream is a read failure of the answer |
| Protocol.AcceptedEncoding | src/main/java/games/dollarone/elympics/Requester.java:400-406 | only no encoding or `gzip`; anything else is refused, by `Protocol.UnexpectedEncoding` in `parse` and by `Protocol.HandleApiError` |
| Protocol.HandleApiError | src/main/java/games/dollarone/elympics/Requester.java:411-450 | retries exactly on 403 with `Retry-After`; rethrows `e` on an unreadable status, 401 or a null error stream; refuses an error stream in another encoding than none or `gzip`; otherwise throws an exception of `e`'s kind (with `e`'s code, message and URL for `HttpException`) whose message is the error text and whose cause is `e` |
| Protocol.Handle | src/main/java/games/dollarone/elympics/Requester.java:235-237 | the `catch` keeps the state; an unchecked failure or a result passes through untouched; a checked one goes round again exactly when `handleApiError` returns, and otherwise ends the run with what it throws |
| Protocol.Concat | src/main/java/games/dollarone/elympics/Requester.java:225-230 | this page's items, then the rest; a null page throws `NullPointerException` |
| Protocol.Call | src/main/java/games/dollarone/elympics/Requester.java:196-239 | the transport only moves forward; a connection once opened stays set |
| Protocol.Loop | src/main/java/games/dollarone/elympics/Requester.java:209-238 | the transport only moves forward |
| Protocol.Attempt | src/main/java/games/dollarone/elympics/Requester.java:209-213 | a retried pass consumes an answer |
| Protocol.Written | src/main/java/games/dollarone/elympics/Requester.java:212-237 | after writing, the current connection is set |
| Protocol.Page | src/main/java/games/dollarone/elympics/Requester.java:214-234 | the transport only moves forward |
| Protocol.Build | src/main/java/games/dollarone/elympics/Requester.java:281-305 | `buildRequest`; its effects are stated by `Protocol.BuildEffects` and `Protocol.BuildKeeps` |
| Protocol.BuildEffects | src/main/java/games/dollarone/elympics/Requester.java:281-305 | nothing for a body-less verb; otherwise output on and `Content-type` set, a raw stream written whole and closed, and a failure exactly on an empty form or a closed stream |
| Protocol.BuildKeeps | src/main/java/games/dollarone/elympics/Requester.java:281-305 | writing the request changes neither the URL nor the answer of the connection |
| Protocol.FormWritten | src/main/java/games/dollarone/elympics/Requester.java:286-292 | the form text is written UTF-8 encoded |
| Protocol.PassOnReply | src/main/java/games/dollarone/elympics/Requester.java:210-237 | a pass on an answer: set up, write, then parse and handle the error, on the connection just opened |
| Protocol.WithBody | src/main/java/games/dollarone/elympics/Requester.java:307-309 | `isMethodWithBody`; stated case by case by `Protocol.VerbCaseSensitive` |
| Protocol.VerbCaseSensitive | src/main/java/games/dollarone/elympics/Requester.java:307-309 | a body is sent unless the verb is exactly `GET` or `DELETE` and the body is not forced; `get` sends one |
| Protocol.NextPage | src/main/java/games/dollarone/elympics/Requester.java:217-221 | the `link` header, the `contains` guard, then the pattern; `Protocol.NextPageIsPattern` shows the guard never decides |
| Protocol.NextPageIsPattern | src/main/java/games/dollarone/elympics/Requester.java:217-221 | the next link is decided by the pattern alone |
| Protocol.UnauthorizedEndsRun | src/main/java/games/dollarone/elympics/Requester.java:423-424 | 401 rethrows the `HttpException` of the failed read, with no retry and no error stream |
| Protocol.ResendableBuild | src/main/java/games/dollarone/elympics/Requester.java:281-305 | a body-less request or a non-empty form can be written again with no change |
| Protocol.ThrottledHandled | src/main/java/games/dollarone/elympics/Requester.java:427-430 | a rate-limited answer makes `handleApiError` return normally |
| Protocol.ThrottledRetries | src/main/java/games/dollarone/elympics/Requester.java:209-238 | a rate-limited answer sends the loop round again, one answer further |
| Protocol.LoopAgain | src/main/java/games/dollarone/elympics/Requester.java:209-238 | after a retry the loop goes on from the state the pass left |
| Protocol.AttemptIgnoresConnection | src/main/java/games/dollarone/elympics/Requester.java:210 | a pass opens its own connection before reading one: the previous connection does not matter |
| Protocol.ConnectionIrrelevant | src/main/java/games/dollarone/elympics/Requester.java:209-238 | the loop's outcome does not depend on the previous connection |
| Protocol.ThrottledStep | src/main/java/games/dollarone/elympics/Requester.java:209-238 | one rate-limited answer is skipped without effect on the outcome |
| Protocol.ThrottledSkipped | src/main/java/games/dollarone/elympics/Requester.java:209-238 | after `n` rate-limited answers, the outcome is that of a run starting at the first answer that is not a retry |
| Protocol.RawBodyNotResent | src/main/java/games/dollarone/elympics/Requester.java:294-302 | a raw body is written once: the retry reads the closed stream and fails |
| Protocol.LastPage | src/main/java/games/dollarone/elympics/Requester.java:216-234 | a page without a next link returns what it parses to |
| Protocol.FollowPage | src/main/java/games/dollarone/elympics/Requester.java:216-233 | a page with a next link appends what the nested call returns |
| Protocol.TwoPages | src/main/java/games/dollarone/elympics/Requester.java:216-233 | two linked pages give the first page's items followed by the second's |
| Protocol.NextPageRepeatsQuery | src/main/java/games/dollarone/elympics/Requester.java:197-207 | for GET, the next-page request carries the parameters again, after `&` if the link has a query |
| Protocol.NotModifiedNextPage | src/main/java/games/dollarone/elympics/Requester.java:225-226 | a next page answered with 304 makes the concatenation throw `NullPointerException` |
| Requester.RawBody.constructor | src/main/java/games/dollarone/elympics/Requester.java:128-131 | a request-body stream at its start, open |
| Requester.RawBody.Read | src/main/java/games/dollarone/elympics/Requester.java:297 | `read`: the next bytes up to the buffer size, -1 at the end, an exception once closed |
| Requester.RawBody.Close | src/main/java/games/dollarone/elympics/Requester.java:301 | closes the stream, data unchanged |
| Requester.Transport.constructor | src/main/java/games/dollarone/elympics/Requester.java:312 | the connector's answers, none used |
| Requester.Transport.Connect | src/main/java/games/dollarone/elympics/Requester.java:312 | `connect` yields the next scripted answer |
| Requester.Requester.constructor | src/main/java/games/dollarone/elympics/Requester.java:33-62 | no parameters or headers, verb `POST`, form content type, no body, no connection, body not forced |
| Requester.Requester.SetHeader | src/main/java/games/dollarone/elympics/Requester.java:72-74 | the header map after `put`; nothing else changes |
| Requester.Requester.WithHeader | src/main/java/games/dollarone/elympics/Requester.java:76-79 | as `setHeader`, returning the same requester |
| Requester.Requester.WithPreview | src/main/java/games/dollarone/elympics/Requester.java:81-83 | the `Accept` header |
| Requester.Requester.AddArg | src/main/java/games/dollarone/elympics/Requester.java:133-138 | a non-null value is appended at the end, a null one leaves the list unchanged |
| Requester.Requester.WithInt | src/main/java/games/dollarone/elympics/Requester.java:85-87 | appends the number |
| Requester.Requester.WithInteger | src/main/java/games/dollarone/elympics/Requester.java:89-94 | appends the number, nothing when null |
| Requester.Requester.WithBigInteger | src/main/java/games/dollarone/elympics/Requester.java:96-101 | appends the number, nothing when null |
| Requester.Requester.WithBoolean | src/main/java/games/dollarone/elympics/Requester.java:103-105 | appends the flag |
| Requester.Requester.WithBoxedBoolean | src/main/java/games/dollarone/elympics/Requester.java:106-108 | appends the flag, nothing when null |
| Requester.Requester.WithEnum | src/main/java/games/dollarone/elympics/Requester.java:110-114 | appends the lower-cased, hyphenated name, nothing when null |
| Requester.Requester.WithString | src/main/java/games/dollarone/elympics/Requester.java:116-118 | appends the text, nothing when null |
| Requester.Requester.WithStrings | src/main/java/games/dollarone/elympics/Requester.java:120-122 | appends the collection, nothing when null |
| Requester.Requester.WithMap | src/main/java/games/dollarone/elympics/Requester.java:124-126 | appends the map, nothing when null |
| Requester.Requester.WithBody | src/main/java/games/dollarone/elympics/Requester.java:128-131 | sets the raw body stream only |
| Requester.Requester.Set | src/main/java/games/dollarone/elympics/Requester.java:143-151 | overwrites only the first entry with the key, even with null, length and other entries unchanged; otherwise as `_with` |
| Requester.Requester.SetMethod | src/main/java/games/dollarone/elympics/Requester.java:153-156 | sets the verb only |
| Requester.Requester.SetContentType | src/main/java/games/dollarone/elympics/Requester.java:158-161 | sets the content type only |
| Requester.Requester.InBody | src/main/java/games/dollarone/elympics/Requester.java:168-171 | forces a body, so parameters go in the body whatever the verb |
| Requester.Requester.SetupConnection | src/main/java/games/dollarone/elympics/Requester.java:311-327 | a null connector throws; a refused connection throws; otherwise the connection carries the resolved URL, the request headers in order and the verb |
| Requester.SetProperties | src/main/java/games/dollarone/elympics/Requester.java:316-323 | the header loop adds the key, then every header with a value, in order |
| Requester.Requester.FormText | src/main/java/games/dollarone/elympics/Requester.java:286-291 | the builder loop computes the form body, the empty case included |
| Requester.Requester.CopyBody | src/main/java/games/dollarone/elympics/Requester.java:294-302 | the bytes written are exactly the unread bytes, and the stream ends closed; a closed stream throws |
| Requester.Requester.BuildRequest | src/main/java/games/dollarone/elympics/Requester.java:281-305 | the connection, body stream and exception are those of `Protocol.Build` |
| Requester.AppendQuery | src/main/java/games/dollarone/elympics/Requester.java:197-207 | the query loop computes the URL of `Params.QueryUrl`, a null value included |
| Requester.Requester.To | src/main/java/games/dollarone/elympics/Requester.java:196-239 | the outcome and the transport, connection and body afterwards are those of `Protocol.Call` |
| Requester.Requester.Pass | src/main/java/games/dollarone/elympics/Requester.java:209-237 | one pass of the loop is `Protocol.Attempt`: a retry or the end of the run |
| Requester.Requester.TryParse | src/main/java/games/dollarone/elympics/Requester.java:214-237 | the `try` block is `Protocol.Page` and its `catch` is `Protocol.Handle` |
| Api.AsList | src/main/java/games/dollarone/elympics/Elympics.java:73 | `Arrays.asList` keeps the array and throws on null |
| Api.Connect | src/main/java/games/dollarone/elympics/Elympics.java:43-45 | production endpoint, the key, the default connector |
| Api.GetHighscores | src/main/java/games/dollarone/elympics/Elympics.java:72-79 | a POST of `key` to `/getHighscores`, the pages of the answer as a list |
| Api.SubmitHighscore | src/main/java/games/dollarone/elympics/Elympics.java:81-88 | a POST of `key`, `name`, `score`, nulls dropped, to `/submitHighscore`, the answer discarded |
| Api.SubmitHighscoreOf | src/main/java/games/dollarone/elympics/Elympics.java:90-92 | the highscore's name and score |
| Api.SubmitLong | src/main/java/games/dollarone/elympics/Elympics.java:94-96 | the `long` score as a number |
| Api.SubmitFieldsPlain | src/main/java/games/dollarone/elympics/Elympics.java:82-85 | the submitted keys hold neither `&` nor `=`; no value holds `&` if the key and name do not |
| Api.SubmitPairs | src/main/java/games/dollarone/elympics/Elympics.java:82-85 | the submitted pairs are key, name and decimal score, each only when not null |
| Api.SubmitReadsBack | src/main/java/games/dollarone/elympics/Elympics.java:81-88 | a server reads back key, name and score in order, and the score field parses to the score |
| Api.EmptyFormFails | src/main/java/games/dollarone/elympics/Requester.java:286-292 | a POST without parameters fails with `StringIndexOutOfBoundsException(-1)` after one connection, without retry |
| Api.KeylessHighscoresFail | src/main/java/games/dollarone/elympics/Elympics.java:72-79 | `getHighscores` without a key always fails once connected |
| Api.HighscoresRequest | src/main/java/games/dollarone/elympics/Elympics.java:72-79 | with a key: POST to the base URL plus `/getHighscores`, body `key=<key>` in UTF-8 |

## Left out

- Real I/O is left out: opening connections, socket timeouts (`ImpatientHttpConnector`, `HttpConnector`), GZIP decompression and `IOUtils`. The transport is a finite script of answers. Body text is given already decompressed and decoded, so a corrupt gzip body appears as a failure reading the answer (`Wire.Stream.Fails`), which `parse` wraps like any other.
- Jackson data binding and the `MAPPER` configuration are a `Codec` of three functions supplied by the caller. It may return a value, JSON `null`, a mapping error or another parse error.
- Logging in `handleApiError` is left out.
- `MalformedURLException` from `new URL` is left out: URLs are kept as text and never rejected.
- The reflective custom-verb override in `setRequestMethod` is left out. So is its final check that the method was set: setting the verb always succeeds in the model.
- Thread safety is left out.
- Protocol.Outcome: a run that asks for more answers than the script holds ends in `OutOfScript`. That case is a bound on the model's script; the Java loop would go on connecting.
- `asHttpStatusCode`, `asStream` and `getResponseHeader` are not modelled. They reuse the same retry loop and add only I/O.
- The `to(String)` and `to(String, T)` overloads of `to` are folded into the `Target` argument of `Requester.Requester.To`: no target, a type, or an existing instance.
- `retrieve()` is not modelled, because nothing calls it.
- `ElympicsHighscore`'s getters are the fields of `Highscores.Highscore`. The protected no-argument constructor is the constant `Highscores.Empty`.
- UrlEncoding.Encode: strings are sequences of Unicode scalar values. A Java string holding an unpaired surrogate, which `URLEncoder` writes as `%3F`, cannot be expressed.
- Params.EnumText: lower-casing follows `Locale.ENGLISH` for ASCII letters only. Other characters of a constant's name are kept as they are.
- Params.Text: the `AbstractCollection`/`AbstractMap` text of collection and map values is modelled. A map with itself as a key or value is not.
- A null root or a null highscore (a `NullPointerException` before any request) is not modelled. A null endpoint in `Elympics`'s constructor is not modelled either.
- The property loop of `setupConnection` and the query-string loop of `_to` are module-level methods (`Requester.SetProperties`, `Requester.AppendQuery`). They take the fields they read as arguments.
- `setRequestProperty` is modelled as a log of calls (`Conn.props`). Merging repeated names into one property is the JDK's business and is not modelled.
- Protocol.Call: the JDK's `int` limit on array lengths is not modelled. Concatenated pages may be of any length.
- A request-body stream is modelled as bytes, read through a 32768-byte buffer. Reading a closed stream throws `IOException("Stream closed")`, as `FileInputStream` does; other streams may behave otherwise.
