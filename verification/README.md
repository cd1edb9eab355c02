# HashHush: a verified model of its server

HashHush is a chat server with its HTTP, WebSocket and JSON stack vendored in. This project models the parts of it that
carry most of its state and proves what they are for. Objects that the server updates in place are classes whose
methods change their fields; each method is proved against a function on values, and the properties are proved of these
functions, for all inputs and over all runs.

| files | model |
|---|---|
| `RoutePattern`, `RouteTable`, `RouteIndex`, `Router` | the route index: a tree built from patterns, compressed, and searched with backtracking, against a scan over all rules |
| `HttpBody`, `HttpChunks`, `HttpParser` | the body states of the HTTP parser: byte by byte, and as the loop over buffers with marks and strides |
| `JsonText`, `JsonStrings`, `JsonNumbers`, `JsonGrammar`, `JsonParser`, `JsonValue`, `JsonList` | printing and parsing JSON: on texts, against a grammar of the texts that are read, in place in the parser's own buffer, and as values with machine numbers |
| `Sha256Spec`, `Sha256Constants`, `Sha256Example`, `Sha256Stream` | SHA-256 as FIPS 180-4 defines it, with its constants and its example, and the streaming implementation |
| `Difficulty`, `Captcha` | the proof of work, HMAC, challenge tokens and the single-use ledger |
| `RoomState`, `RoomInvariants`, `RoomPool`, `RoomRuns`, `RoomConduct`, `RoomServer` | rooms: joining, relaying, closing and deleting as atomic steps over three indexes and three tables, with a record of what each connection was sent |
| `WebSocket`, `WebSocketConnection` | framing, masking, piecewise reads and reassembly |
| `Base64`, `QueryString` | two base64 codecs and the in-place query-string parser |
| `Basics`, `Decimals`, `Hexadecimals` | what several modules share: optional values, characters, powers of two, numbers in base 10 and 16 |

`dafny verify dfyconfig.toml` checks the project.

## What turned out otherwise

- The delivered body of a chunked request does depend on how the stream is cut, in one case: a wrong byte where the CR
  behind a chunk is expected ends the parser without delivering the chunk bytes of that buffer
  (`src/crowlib/crow/http_parser_merged.h:1874-1880`). `HttpBody.BodyIndependent` gives the exact condition, and
  `HttpChunks.BodyDependsOnCuts` what is lost.
- What a connection reads behind a complete message depends on the cuts exactly if the connection is to be closed: then
  the rest of the same buffer begins another request, and nothing more is read (`HttpParser.CutsMatterBehind`,
  `src/crowlib/crow/http_connection.h:494-499`). On a connection that stays open the bytes behind begin the next request
  wherever they are cut (`HttpParser.ReadsToCompletion`).
- A challenge token is accepted again exactly if its ledger entry was cleaned away and the clock then stepped back
  (`Captcha.AcceptedAgain`, `Captcha.StepBackExists`); with a clock that never does, it is not
  (`Captcha.AcceptedAtMostOnce`).
- The bound on the tokens of a room holds up to the number of right answers to decoys (`RoomRuns.TokensBounded`).
- A rule with a trailing slash makes a redirect that wins over every other rule, since its index is the smallest
  (`Router.LookupMeaning`).
- `src/captcha.h:17` calls a challenge expired when its time is below the clock; the code also refuses it when they are
  equal (`src/captcha.cpp:213`), and the model follows the code.
- A character that a JSON text spells as a pair of escapes is not loaded as UTF-8: each half of the pair is encoded by
  itself (`JsonStrings.SurrogatesStay`, `src/crowlib/crow/json.h:506-530`).
- The numbers that are read are not those of RFC 8259: one with an exponent right behind a zero, such as `0e5`, is
  refused (`JsonNumbers.StandardRead`), and the digits behind a point or the sign of an exponent may be missing
  (`JsonNumbers.GoodNumber`, `JsonNumbers.NumberReads`).
- A lone `=` makes the size computation of the lenient base64 decoder drop below zero (`Base64.CrowDecode`).

## Model

| member | source | states |
|---|---|---|
| `RoutePattern.AcceptedIffTagsKnown` | src/crowlib/crow/utility.h:202-230 | A pattern gets a parameter tag exactly if every `<` in it opens one of the seven known tags; otherwise registration throws |
| `RoutePattern.TagSpellsKinds` | src/crowlib/crow/utility.h:202-230 | The tag number is, in base 6 and modulo 2^64, the list of parameter kinds in the order of the pattern's tokens |
| `RoutePattern.ReadAsWritten` | src/crowlib/crow/routing.h:1000-1069 | A pattern is accepted exactly if it is a sequence of texts, each a known tag or a character other than `<`, and it is read as the tokens that these texts stand for |
| `RouteTable.MatchMeaning` | src/crowlib/crow/routing.h:832-982 | A URL matches exactly if it falls into one piece for each token: the character itself; for a string a non-empty piece without a slash that ends at a slash or at the end; for a path all of a non-empty rest; for a number what the library reads; and the captured parameters are the pieces in their order |
| `RouteTable.ScanIsAnswer` | src/crowlib/crow/routing.h:832-988 | Trying every route in turn returns the smallest rule index that matches and its captured segments, in whatever order the routes stand |
| `RouteTable.AnswerUnique` | src/crowlib/crow/routing.h:844-854 | There is one right rule index, and one right list of captured segments if that index is unique |
| `RouteIndex.RoutingParams.PopBack` | src/crowlib/crow/routing.h:944-949 | Popping undoes the push on the shared parameter stack |
| `RouteIndex.Trie.TryChild` | src/crowlib/crow/routing.h:870-982 | One child: the shared parameters come back unchanged, and the answer is that of a scan over the child's routes |
| `RouteIndex.Trie.FindFrom` | src/crowlib/crow/routing.h:832-988 | The backtracking search from any node equals the scan over the routes below it, and leaves the shared parameter stack as it was |
| `RouteIndex.Trie.Find` | src/crowlib/crow/routing.h:990-993 | For every URL, the smallest index among all added patterns into whose pieces the URL falls, with these pieces as captured parameters; 0 if there is none |
| `RouteIndex.Trie.Absorb` | src/crowlib/crow/routing.h:756-764 | Merging a node with its only literal child keeps the list of routes below the root |
| `RouteIndex.Trie.OptimizeNode` | src/crowlib/crow/routing.h:752-773 | Path compression of a subtree terminates and keeps the routes of the whole tree, order included |
| `RouteIndex.Trie.Optimize` | src/crowlib/crow/routing.h:742-748 | Path compression preserves meaning: the routes that a search scans are the same before and after |
| `RouteIndex.Trie.Validate` | src/crowlib/crow/routing.h:824-829 | The start-up check does not fail on a tree built by adding alone, and compresses it without changing its routes |
| `RouteIndex.Trie.Step` | src/crowlib/crow/routing.h:1000-1069 | One token of a pattern: an existing child that carries it is taken, otherwise one is appended; the shape of an unoptimised tree is kept |
| `RouteIndex.Trie.Walk` | src/crowlib/crow/routing.h:1000-1069 | Adding walks the pattern token by token to its end, so that it terminates on every accepted pattern |
| `RouteIndex.Trie.Add` | src/crowlib/crow/routing.h:996-1076 | Adding fails exactly if the pattern is taken, and otherwise adds this one route; literal keys stay one character long and siblings distinct |
| `RouteIndex.Trie.Bubble` | src/crowlib/crow/routing.h:1072-1076 | A rule put at the end of a path appears once among the routes of every node on that path |
| `Router.ShorterTokens` | src/crowlib/crow/routing.h:1285-1290 | The redirect of a rule has exactly its tokens but the final slash, so a rule never takes the pattern of its own redirect |
| `Router.PerMethod.AddRule` | src/crowlib/crow/routing.h:1281-1306 | Registration succeeds exactly if neither the pattern nor that of its redirect is taken by the rule table, and then adds the route and, for a trailing slash, the redirect; the tree holds exactly the routes of the table |
| `Router.PerMethod.Validate` | src/crowlib/crow/routing.h:1399-1402 | The tree of a rule table always passes the start-up check |
| `Router.PerMethod.Find` | src/crowlib/crow/routing.h:1649 | A lookup returns the answer for the rule table |
| `Router.TagInShorter` | src/crowlib/crow/routing.h:1285-1290 | Cutting off a trailing slash leaves every tag of the pattern in place |
| `Router.LookupMeaning` | src/crowlib/crow/routing.h:1677-1693 | Index 1 is found exactly if some rule misses only its final slash; otherwise the first registered rule that matches, with its segments; 0 only if no rule matches |
| `HttpBody.SizeDigitExact` | src/crowlib/crow/http_parser_merged.h:1808-1819 | The overflow guard lets exactly the sums below 2^64 - 16 through: nothing wraps, nothing reaches the all-ones sentinel |
| `HttpBody.StepKeeps` | src/crowlib/crow/http_parser_merged.h:1723-1888 | One byte keeps what the parser asserts about its state, counters and flags |
| `HttpBody.StepsKeep` | src/crowlib/crow/http_parser_merged.h:1723-1888 | Over every run, the assertions of the body states hold |
| `HttpBody.FeedKeeps` | src/crowlib/crow/http_parser_merged.h:1900-1918 | Between two buffers nothing is pending and the assertions hold |
| `HttpBody.CutsAgree` | src/crowlib/crow/http_parser_merged.h:1723-1918 | However a stream is cut into non-empty buffers: same state, error, counters and flags as in one buffer, the same requests handed over, the same bytes of the body read, and the same bytes left to the header states, at a trailer field or behind a complete message |
| `HttpBody.AllDelivered` | src/crowlib/crow/http_parser_merged.h:1900-1918 | However the stream is cut, every byte of the body that was read is delivered, unless a chunk ends badly |
| `HttpBody.LostAtChunkEnd` | src/crowlib/crow/http_parser_merged.h:1874-1880 | When a chunk ends badly, the pending bytes of that buffer are not delivered, unless the bad byte is the first of the buffer |
| `HttpBody.EndsBadly` | src/crowlib/crow/http_parser_merged.h:1874-1880 | A run ends at a bad chunk end, behind bytes of the same stream, exactly if somewhere behind its first byte a chunk is complete and the next byte is not CR |
| `HttpBody.BodyIndependent` | src/crowlib/crow/http_parser_merged.h:1851-1888 | What is delivered, the body so far and the requests handed over, is the same for every cutting exactly if nowhere behind the first byte a chunk is complete and another byte than its CR follows |
| `HttpChunks.BodyDependsOnCuts` | src/crowlib/crow/http_parser_merged.h:1874-1880 | For any chunks behind a header, one more with a wrong byte behind its data: cut in front of that byte, the last chunk is delivered; in one buffer it is lost; the error is the same |
| `HttpChunks.ThreeBytesLost` | src/crowlib/crow/http_parser_merged.h:1874-1880 | A concrete such stream |
| `HttpChunks.DataReads` | src/crowlib/crow/http_parser_merged.h:1851-1872 | A stride over body bytes equals reading them one at a time |
| `HttpChunks.DataEnds` | src/crowlib/crow/http_parser_merged.h:1723-1753 | The stride that ends a body hands the request over (known length) or waits for the CR (chunk) |
| `HttpChunks.SizeReads` | src/crowlib/crow/http_parser_merged.h:1770-1821 | A chunk size in hexadecimal digits of either case, with any leading zeros, is read as exactly the number it writes, or rejected as too large or too long; nothing in between |
| `Hexadecimals.HexTextWrites` | src/crowlib/crow/http_parser_merged.h:681-690 | Every text of hexadecimal digits, of either case, writes a number, so that the statement about sizes is about all of them |
| `HttpChunks.ChunkReads` | src/crowlib/crow/http_parser_merged.h:1770-1888 | One chunk, with any spelling of its size and any extension, adds exactly its data |
| `HttpChunks.ChunkedRoundTrip` | src/crowlib/crow/http_parser_merged.h:1770-1888 | Decoding the chunked coding of any chunks, cut in any way and with anything behind it, hands over the concatenation of their data once and leaves exactly what is behind |
| `HttpChunks.LengthRoundTrip` | src/crowlib/crow/http_parser_merged.h:1723-1753 | A body of known length, cut in any way and with anything behind it, is handed over whole, once, and leaves exactly what is behind |
| `HttpParser.BodyParser.SizeLineByte` | src/crowlib/crow/http_parser_merged.h:1770-1844 | A byte of a size line acts as in the byte-wise machine, with the 64-bit sums written out |
| `HttpParser.BodyParser.ReadData` | src/crowlib/crow/http_parser_merged.h:1851-1872 | The stride with its body mark equals single bytes |
| `HttpParser.BodyParser.Advance` | src/crowlib/crow/http_parser_merged.h:745-1890 | One turn of the loop, with header count and mark, equals the byte-wise machine on the bytes it passes |
| `HttpParser.BodyParser.OnMessageComplete` | src/crowlib/crow/parser.h:94-101 | A complete message goes to the handler, which answers at once; the answer clears the parser, so that the loop goes on with a new message |
| `HttpParser.BodyParser.Execute` | src/crowlib/crow/http_parser_merged.h:633-1926 | The loop over a whole buffer, with marks, flush and the callback that clears the parser inside it, refines the byte-wise machine; the returned count is the bytes before the failing one |
| `HttpParser.BodyParser.Feed` | src/crowlib/crow/parser.h:111-133 | A buffer is passed on unless a complete message waits for its answer, and success is reported exactly if the parser has no error |
| `HttpParser.BodyParser.ReadAll` | src/crowlib/crow/http_connection.h:470-511 | The connection reads buffer after buffer until the parser fails or a request that closes the connection has been answered |
| `HttpParser.HandsOver` | src/crowlib/crow/http_parser_merged.h:1766-1768 | The byte that completes a message hands its body over once, and every byte behind it is left for the next message |
| `HttpParser.ReadsToCompletion` | src/crowlib/crow/http_connection.h:470-511 | However its stream is cut, a connection hands over the same request; it leaves to the next one all that follows if it stays open, and what the same buffer still holds if it is to be closed |
| `HttpParser.FeedPassesAll` | src/crowlib/crow/http_connection.h:470-511 | If the message completes with the last byte at the earliest, every buffer is read |
| `HttpParser.ChunkedCompletesLast` | src/crowlib/crow/http_parser_merged.h:1580-1588 | Whatever follows, a chunked body completes its message with its very last byte |
| `HttpParser.ChunkedReceived` | src/crowlib/crow/parser.h:88-149 | A connection that receives a chunked body, cut in any way and with anything behind it, hands over exactly its data and leaves exactly what it reads behind it |
| `HttpParser.LengthReceived` | src/crowlib/crow/parser.h:88-149 | The same for a body of known length |
| `HttpParser.RequestReceived` | src/crowlib/crow/http_parser_merged.h:1580-1712 | From the end of a header that frames its body in one way: the connection hands over exactly the body that the text behind it carries, in chunks, of the announced length, or none, however the stream is cut and whatever follows |
| `HttpParser.FramingRefused` | src/crowlib/crow/http_parser_merged.h:1588-1712 | A header with both a transfer coding and a length, or with a coding that is not chunked, hands nothing over, whatever follows |
| `HttpParser.CutsMatterBehind` | src/crowlib/crow/http_connection.h:470-511 | What a connection ends with is the same for every cutting of a stream exactly if it stays open, or the message is not complete before the last byte |
| `HttpParser.ContentLength` | src/crowlib/crow/http_parser_merged.h:1402-1430 | A Content-Length value is accepted exactly if it is digits and then spaces with a value below 18446744073709551610, and then with its exact value |
| `JsonGrammar.EscapeRoundTrip` | src/crowlib/crow/json.h:45-71 | Unescaping an escaped byte string gives it back |
| `Decimals.DecimalRoundTrip` | src/crowlib/crow/json.h:1933-1940 | Reading a printed integer gives it back |
| `JsonText.StringEndRaw` | src/crowlib/crow/json.h:902-959 | What the scanner accepts between quotes is made of proper escapes only |
| `JsonGrammar.LoadDump` | src/crowlib/crow/json.h:875-1257 | Loading the dump of a value gives it back exactly if at most 5000 containers stand inside each other, and fails otherwise |
| `JsonStrings.UnitsUnescape` | src/crowlib/crow/json.h:480-536 | A string written in any units, characters, short escapes or codes in four hexadecimal digits, means the bytes of its units in order, where the bytes of a code are those that UTF-8 decodes to it |
| `JsonStrings.EscapesDecode` | src/crowlib/crow/json.h:500-530 | A string of four-digit escapes, digits of either case, unescapes to a text that UTF-8 decodes to exactly their codes |
| `JsonStrings.EscapeDecodes` | src/crowlib/crow/json.h:500-530 | Every escape of four digits that write a code unescapes to a text that UTF-8 decodes to exactly that code |
| `JsonStrings.SurrogatesStay` | src/crowlib/crow/json.h:500-530 | Such a text is UTF-8 in the sense of RFC 3629 exactly if none of the escapes is half of a surrogate pair |
| `JsonNumbers.NumberReads` | src/crowlib/crow/json.h:1002-1126 | Every number of the grammar is read to its end |
| `JsonNumbers.NumberWritten` | src/crowlib/crow/json.h:1002-1126 | Whatever is read as a number is one of the grammar, and the longest one there |
| `JsonNumbers.StandardRead` | src/crowlib/crow/json.h:1002-1126 | A number of RFC 8259 is read as a whole exactly if no exponent stands right behind a zero |
| `JsonGrammar.TreeReads` | src/crowlib/crow/json.h:962-1244 | A text of the grammar, standing anywhere and with any white space inside it, reads as the value that is written at a depth that admits its nesting, and as an error at any other |
| `JsonGrammar.TreeWritten` | src/crowlib/crow/json.h:962-1244 | Whatever is read is a text of the grammar, with the value that is written there |
| `JsonGrammar.TextLoads` | src/crowlib/crow/json.h:875-1257 | Loading a text of the grammar, with white space around it, gives the value that is written exactly if at most 5000 containers stand inside each other, and fails otherwise |
| `JsonGrammar.LoadsGrammar` | src/crowlib/crow/json.h:875-1257 | Loading succeeds exactly on the texts of the grammar that do not nest deeper than 5000, with the value that is written there |
| `JsonParser.HoldsFrame` | src/crowlib/crow/json.h:905-927 | Writing outside its range of the buffer does not touch a parsed value |
| `JsonParser.Unescape` | src/crowlib/crow/json.h:480-542 | Unescapes a string where it stands and clears its flag; the text never grows, and nothing else changes |
| `JsonParser.Parser.WsSkip` | src/crowlib/crow/json.h:896-900 | Skips exactly the white space |
| `JsonParser.Parser.DecodeString` | src/crowlib/crow/json.h:902-959 | Finds the closing quote or fails as the text grammar says, closes the string in place and flags its escapes; the rest of the text stays readable |
| `JsonParser.Parser.DecodeNumber` | src/crowlib/crow/json.h:1002-1126 | The automaton with its inner digit loop ends where the one-character automaton ends |
| `JsonParser.Parser.DecodeList` | src/crowlib/crow/json.h:962-1000 | Reads a list in place as the text grammar reads it, with the depth limit |
| `JsonParser.Parser.DecodeObject` | src/crowlib/crow/json.h:1183-1244 | Reads an object in place, keys unescaped on the way, as the text grammar reads it |
| `JsonParser.Parser.DecodeValue` | src/crowlib/crow/json.h:1129-1181 | Reads any value in place as the text grammar reads it, and touches nothing before it |
| `JsonParser.Parser.Parse` | src/crowlib/crow/json.h:1246-1254 | On every text the in-place parser fails or succeeds as the text grammar, and its result stands for the same value |
| `JsonParser.LoadText` | src/crowlib/crow/json.h:1260-1271 | Loading parses a private copy |
| `JsonValue.NumberRoundTrip` | src/crowlib/crow/json.h:743-761 | A printed 64-bit integer is classified and read as that integer: signed if it is negative, unsigned otherwise |
| `JsonValue.NumberKinds` | src/crowlib/crow/json.h:743-761 | Whatever its text: a number with a fraction or an exponent is floating-point, any other one signed exactly if it has a sign, and the nearest number of 64 bits of its kind |
| `JsonValue.ConvertsBack` | src/crowlib/crow/json.h:1405-1440 | What a value of integers, byte strings, lists and objects prints converts back to the value |
| `JsonValue.FirstStays` | src/crowlib/crow/json.h:1434-1438 | Of several fields with the same key, exactly the first one stays |
| `JsonValue.Copy` | src/crowlib/crow/json.h:1405-1440 | Copying a parsed value gives the value with machine numbers in place of their text and equal keys merged, strings unescaped on the way; the parsed value keeps its meaning |
| `JsonValue.Escape` | src/crowlib/crow/json.h:45-71 | Appends the escaped string |
| `JsonValue.DumpInternal` | src/crowlib/crow/json.h:1852-2028 | Appends the text of the value, machine numbers printed as decimals and floating-point numbers as the library prints them |
| `JsonValue.Reload` | src/crowlib/crow/json.h:2031-2044 | Printing, loading and copying a value without floating-point numbers gives it back, integers from zero on as unsigned, if it is nested at most 5000 deep, and nothing otherwise |
| `JsonList.ElementList.EmplaceBack` | src/crowlib/crow/json.h:722-740 | Appends an element; the array grows without losing any, and the 16-bit count of free places never overflows |
| `Sha256Spec.PadShortest` | src/sha256/sha256.cpp:117-143 | The padding is the shortest that fills whole blocks |
| `Sha256Constants.ConstantsAreRoots` | src/sha256/sha256.h:29-46 | The constants of the rounds are the first 32 bits of the fractional parts of the cube roots of the first 64 primes, the initial hash value those of the square roots of the first eight |
| `Sha256Example.DigestOfAbc` | src/sha256/sha256.cpp:23-153 | The digest of "abc" is that of the standard's example |
| `Sha256Stream.MajorityIsMaj` | src/sha256/sha256.cpp:62-64 | The program's majority is the standard's Maj |
| `Sha256Stream.SigmasAgree` | src/sha256/sha256.cpp:54-72 | Shifts and masks are the standard's rotations and sigma functions |
| `Sha256Stream.RoundIsRound` | src/sha256/sha256.cpp:90-109 | One round as the program adds it up is one round of section 6.2.2 of FIPS 180-4 |
| `Sha256Stream.Schedule` | src/sha256/sha256.cpp:78-84 | The 64 words are the message schedule of the block |
| `Sha256Stream.SHA256.Transform` | src/sha256/sha256.cpp:74-115 | The state is compressed with the block in the buffer |
| `Sha256Stream.SHA256.Update` | src/sha256/sha256.cpp:23-34 | Any pieces of a message: the state is that of its whole blocks, the rest waits in the buffer, the bit count is exact |
| `Sha256Stream.SHA256.Pad` | src/sha256/sha256.cpp:117-143 | In both cases, tail below 56 bytes or not, the state becomes that of the padded message |
| `Sha256Stream.SHA256.Revert` | src/sha256/sha256.cpp:145-153 | The words of the state as bytes, most significant first |
| `Sha256Stream.SHA256.Digest` | src/sha256/sha256.cpp:45-52 | The first digest is SHA-256 of everything hashed so far, for messages below 2^61 bytes |
| `Sha256Stream.HashPieces` | src/sha256/sha256.cpp:23-52 | However a message below 2^61 bytes is split into pieces, the digest is SHA-256 of the whole |
| `Captcha.HmacSha256` | src/captcha.cpp:75-107 | HMAC as in section 2 of RFC 2104, for keys of any length |
| `Captcha.Split3Exact` | src/captcha.cpp:135-151 | A token splits into three parts exactly if it is these parts joined by colons that none of them contains |
| `Captcha.CtEqualStr` | src/captcha.cpp:63-72 | The comparison without early exit is equality |
| `Difficulty.ZeroBitsBound` | src/captcha.cpp:117-132 | The byte-and-mask test holds exactly if the digest, as a number, is below 2^(8n - bits) |
| `Difficulty.MeetsDifficulty` | src/captcha.cpp:117-132 | The server's test, for any difficulty and any digest that it does not read past: the digest is below 2^(8n - bits), and no more bits are asked for than it has |
| `Difficulty.ClientMeetsDifficulty` | web/src/lib/pow.js:18-29 | The client's test, for any difficulty: the same bound; a digest of zeros passes for up to seven bits more than it has |
| `Difficulty.SolvePoW` | web/src/lib/pow.js:31-53 | For any challenge and difficulty: what is found is the first counter that proves its work, and the server accepts it; nothing is found only if no counter tried proves the work |
| `Captcha.CaptchaServer.GcLocked` | src/captcha.cpp:153-161 | Exactly the expired entries go |
| `Captcha.CaptchaServer.VerifyChallenge` | src/captcha.cpp:185-238 | All the answers of a verification, and the ledger after it |
| `Captcha.LedgerUnexpired` | src/captcha.cpp:231-238 | After the ledger is updated, every entry in it is unexpired |
| `Captcha.CheckMeans` | src/captcha.cpp:185-227 | A submission passes all checks but the ledger exactly if its challenge is a name, a time and their code under the secret in lower-case digits, the time lies ahead, and the nonce proves the work; each refusal has its exact condition |
| `Captcha.AcceptedDeserves` | src/captcha.cpp:185-238 | In any run a submission gets as far as the ledger exactly under that condition, so that nothing is accepted that the secret has not signed |
| `Captcha.StollReads` | src/captcha.cpp:205-210 | The time is read as the signed 64-bit number that the text begins with, behind white space and before anything that is no digit |
| `Captcha.AcceptedAtMostOnce` | src/captcha.cpp:205-238 | In any run whose clock readings never decrease, a token is accepted at most once, although its entry is collected at expiry |
| `Captcha.AcceptedAgain` | src/captcha.cpp:153-161 | Whatever the clock does, exactly when an accepted token is accepted again: if and only if in between some submission passed its checks at a time when the token had expired |
| `Captcha.ClockMustNotStepBack` | src/captcha.cpp:229-238 | For any two issued challenges: the first used in time, the second after the first has expired, the first again at its earlier time, and it is accepted twice |
| `Captcha.StepBackExists` | src/captcha.cpp:229-238 | Such a run exists for every secret |
| `Captcha.IssuedIsChecked` | src/captcha.cpp:177-227 | An issued token passes exactly until it expires and exactly with the nonces that prove the work |
| `RoomServer.Database.DeleteRoom` | src/db.cpp:123-131 | The room goes, with its challenges and tokens |
| `RoomServer.Database.InsertChallenges` | src/db.cpp:178-198 | All rows or none, with fresh ascending ids |
| `RoomServer.Database.ConsumeChallenge` | src/db.cpp:211-245 | Hands out the first unused challenge of the room and marks exactly that one |
| `RoomServer.Database.InsertAccessToken` | src/db.cpp:247-258 | Fails exactly for a token that exists or a room that does not |
| `RoomServer.RoomManager.OnWsAccept` | src/room.cpp:12-21 | Both indexes gain the connection |
| `RoomServer.RoomManager.OnWsClose` | src/room.cpp:23-54 | Both indexes lose the connection, no empty room stays, and the others are told exactly if it had joined |
| `RoomServer.RoomManager.Broadcast` | src/room.cpp:89-113 | Exactly the joined connections of the room but the excepted ones get the frame, once |
| `RoomServer.RoomManager.CloseRoom` | src/room.cpp:115-131 | Everybody in the room, joined or not, is told and closed, and the cache is dropped |
| `RoomServer.RoomManager.AppendCachedMessage` | src/room.cpp:133-146 | The cache keeps the last messages, as many as it holds |
| `RoomServer.RoomManager.LiveCount` | src/room.cpp:73-87 | The number of joined connections of the room |
| `RoomServer.RoomManager.JoinedPeerIds` | src/room.cpp:162-176 | The peer ids of the joined connections, as a multiset, in the order in which the set is walked |
| `RoomServer.ChatServer.FinalizeJoin` | src/webapi.cpp:457-506 | Marks the peer, sends it its snapshot, tells the others; equal to the step function on the whole state |
| `RoomServer.ChatServer.SendChallenge` | src/webapi.cpp:524-556 | The next unused challenge of the room if the room exists and is not full, a decoy if there is none |
| `RoomServer.ChatServer.OnResponse` | src/webapi.cpp:557-580 | A right answer records the pending token once and joins; everything else refuses and clears the challenge |
| `RoomServer.ChatServer.OnMessage` | src/webapi.cpp:420-624 | The message handler equals the step function, for an order of connections that the surroundings could supply, so that the server stays in a state that some run reaches |
| `RoomServer.ChatServer.OnCloseOrError` | src/webapi.cpp:405-419 | Close and error end in the same step, which leaves the server in a reachable state |
| `RoomServer.ChatServer.Activate` | src/webapi.cpp:227-274 | Activation checks the count and the fields of the pool and inserts it whole; the server stays in a reachable state |
| `RoomServer.ChatServer.Delete` | src/webapi.cpp:312-341 | Deleting needs a token of the room; the server stays in a reachable state |
| `RoomServer.ChatServer.Purge` | src/main.cpp:194-203 | A purge tells and closes every connection of the room, drops its cached messages and deletes its rows; the server stays in a reachable state |
| `RoomInvariants.MembersJoin` | src/webapi.cpp:488-503 | A join keeps every view of the members right: the joiner's snapshot and the others' arrivals |
| `RoomInvariants.MembersClose` | src/room.cpp:44-53 | A departure keeps every view of the members right |
| `RoomInvariants.ListCounts` | src/room.cpp:162-176 | The listed ids, as a multiset, are the joined connections counted by id |
| `RoomInvariants.CacheRelay` | src/room.cpp:133-146 | A relayed message keeps every cache the last messages since its last erasure |
| `RoomInvariants.HistoryRelay` | src/webapi.cpp:591-616 | A relayed message keeps what every joined connection has received an unbroken end of its room's messages |
| `RoomPool.UnusedAfterFirst` | src/db.cpp:211-245 | Handing out the first unused row takes the first id from the room's unused ids and no other room's |
| `RoomPool.PoolHandOut` | src/webapi.cpp:524-535 | Handing a challenge out keeps the pool facts: a prefix in id order, none twice, open challenges distinct |
| `RoomPool.PoolRedeem` | src/webapi.cpp:562-579 | Redeeming a challenge keeps the pool facts |
| `RoomPool.PoolActivate` | src/webapi.cpp:241-268 | Activation keeps the pool facts, with as many challenges as the room requires |
| `RoomRuns.StepKeeps` | src/webapi.cpp:397-625 | Every handler keeps all invariants |
| `RoomRuns.ReachableGood` | src/webapi.cpp:397-625 | All invariants hold in every reachable state |
| `RoomRuns.IndexesAgree` | src/room.cpp:12-54 | In every reachable state both indexes of the connections describe the same relation, and no room is empty |
| `RoomRuns.PendingTogether` | src/webapi.cpp:548-565 | In every reachable state a peer's pending token and expected answer are both empty or both not |
| `RoomRuns.ViewIsMembers` | src/webapi.cpp:488-503 | In every reachable state a joined connection's snapshot, plus later arrivals, minus later departures, is the ids joined to its room, as a multiset |
| `RoomRuns.ReceivedIsSuffix` | src/webapi.cpp:466-486 | In every reachable state what a joined connection has received is the messages of its room from the point on that was fixed when it joined |
| `RoomRuns.JoinHistory` | src/webapi.cpp:457-486 | Over every step in which a connection joins, by a token or by a right answer: it receives the last messages since the cache was last erased, as many as the cache holds, and that fixes where its messages start |
| `RoomRuns.ReceivesAll` | src/webapi.cpp:591-616 | Over every run after its join, every message of its room is added once and in order to what a connection has received, and nothing else is |
| `RoomRuns.DepartsOnce` | src/room.cpp:23-54 | In every reachable state no connection has been sent more departures of a peer id than joined connections with that id have departed |
| `RoomRuns.ClosesOnce` | src/webapi.cpp:405-419 | Over every run after a connection has closed, a second report of its end, by close or by error, changes and sends nothing |
| `RoomRuns.JoinedByToken` | src/webapi.cpp:457-463 | A joined peer's id derives from a token once recorded for its own room |
| `RoomRuns.CacheChanges` | src/webapi.cpp:591-616 | Over every step, the cache of every room: a message relayed by a joined peer is added, deleting or purging the room empties it, and nothing else changes it; presence frames never do |
| `RoomRuns.OnlyRoomHears` | src/room.cpp:89-113 | What a peer sends, and its going, reaches only itself and the joined connections of its room |
| `RoomRuns.PoolInOrder` | src/webapi.cpp:524-535 | In every reachable state the challenges handed out of a room are a prefix of its pool in id order, none twice; the unused rows in the table are the rest of the pool; the pool is as large as the room requires |
| `RoomRuns.DecoysCounted` | src/webapi.cpp:557-579 | Over every step, the count of answered decoys of a room grows by one exactly with a right answer to a decoy whose token can be recorded |
| `RoomRuns.TokensBounded` | src/webapi.cpp:524-585 | In every reachable state, tokens in the table <= fresh tokens <= challenges handed out + decoys answered; with no decoy answered, at most five or ten times the participants |
| `RoomConduct.ChallengeSent` | src/webapi.cpp:524-556 | In every reachable state, a first hello is answered with one frame to its sender only: the ciphertext and nonce of the unused challenge of its room with the least id, whose plaintext is then expected, exactly if the room exists, has a place left and has an unused challenge; otherwise those of a decoy |
| `RoomConduct.ExpectedWasSent` | src/webapi.cpp:548-555 | Over every run, what is expected from a connection with an open challenge is the plaintext of a pair of its own room, or of a decoy drawn for it, and the last challenge it was sent is that of the same pair |
| `RoomConduct.TokenAccepted` | src/webapi.cpp:508-523 | A returning peer joins exactly if its token is recorded for the room of its connection; otherwise it is told so and disconnected, and nothing changes |
| `RoomConduct.AnswerAccepted` | src/webapi.cpp:557-580 | An answer uses its challenge up; exactly if it is the plaintext expected and the new token can be recorded, the token is recorded for the room and the connection joins with it; every other case has its own error |
| `RoomConduct.SpeechRelayed` | src/webapi.cpp:591-616 | A message reaches every member of the room once, its sender included, a presence frame every other member, with the id of the sender and the payload as it stands; an empty or oversized payload only earns its sender an error |
| `RoomConduct.TurnedAway` | src/webapi.cpp:420-443 | A message that is too large, from no peer, not readable or of an unknown kind changes nothing, and only its sender is told |
| `RoomConduct.Goes` | src/webapi.cpp:405-419 | When a connection ends its peer goes, and the other members are told once exactly if it had joined |
| `RoomConduct.RoomCloses` | src/webapi.cpp:312-341 | Closing a room takes one of its tokens or a purge; every connection in it is told and disconnected, nobody else, and its rows, and only its rows, are gone |
| `RoomConduct.RoomCreated` | src/webapi.cpp:193-226 | A room is created exactly if its id is free and the cap on rooms is not reached, not activated and with the smaller of the two limits on participants |
| `RoomConduct.RoomActivated` | src/webapi.cpp:227-274 | Activation happens once, exactly with five or ten pairs for each participant that all fit; the pool goes in whole, unused and in order |
| `RoomConduct.IdOfToken` | src/util.cpp:80-90 | A peer id is the first eight bytes of the hash of the token, in digits |
| `WebSocketConnection.BuildHeader` | src/crowlib/crow/websocket.h:298-319 | The header written through the host's byte order is the shortest of the three forms of section 5.2 of RFC 6455 |
| `WebSocket.HeaderBits` | src/crowlib/crow/websocket.h:393-421 | The first two bytes give back fin, opcode, mask bit and seven-bit length |
| `WebSocket.HeaderFeeds` | src/crowlib/crow/websocket.h:391-498 | In each of its three forms a length is read back exactly |
| `WebSocket.MaskTwice` | src/crowlib/crow/websocket.h:616-622 | Unmasking undoes masking |
| `WebSocket.ReadsAreBytes` | src/crowlib/crow/websocket.h:558-592 | However the reads cut the stream, the reader ends where single bytes would have brought it |
| `WebSocket.FramesRead` | src/crowlib/crow/websocket.h:391-712 | Any frames, read in pieces of any sizes, have their effects one after the other |
| `WebSocket.MessageDelivered` | src/crowlib/crow/websocket.h:623-676 | A message cut into any fragments, with pings and pongs between them, is delivered once and whole; every ping is answered |
| `WebSocket.MessageRead` | src/crowlib/crow/websocket.h:391-712 | From the wire to the application: masked in any way, cut in any way, exactly the message is delivered |
| `WebSocket.MessagesDelivered` | src/crowlib/crow/websocket.h:623-676 | Any number of messages, each in any fragments with control frames between them, are delivered in order, each once and whole |
| `WebSocket.CloseRead` | src/crowlib/crow/websocket.h:660-697 | A close frame behind any frames hands its status and reason on, 1005 if there is no status, and nothing is read behind it |
| `WebSocket.TooLargeStops` | src/crowlib/crow/websocket.h:510-518 | A frame over the limit stops the reader at its length, before its payload, and the application does not see it |
| `WebSocket.ControlEffects` | src/crowlib/crow/websocket.h:698-708 | Every ping is answered, a pong is noted, and frames of unknown kinds have no effect |
| `WebSocket.HeaderLayout` | src/crowlib/crow/websocket.h:298-319 | Where the bits of the first two bytes stand |
| `WebSocket.Examples` | src/crowlib/crow/websocket.h:298-319 | The examples of section 5.7 of RFC 6455 are the encodings of their frames |
| `WebSocketConnection.Connection.OnRead` | src/crowlib/crow/websocket.h:391-592 | Each read changes the fields as the reader does, through the host's byte order |
| `WebSocketConnection.Connection.OnReads` | src/crowlib/crow/websocket.h:355-592 | A sequence of reads of any sizes leaves the connection where the reader's reads do |
| `WebSocketConnection.Connection.Unmask` | src/crowlib/crow/websocket.h:616-622 | Unmasks the fragment in place |
| `WebSocketConnection.Connection.HandleFragment` | src/crowlib/crow/websocket.h:614-712 | A complete fragment is handled as the reader handles it |
| `Base64.Base64Encode` | src/util.cpp:92-117 | The encoding of section 4 of RFC 4648 |
| `Base64.CrowEncode` | src/crowlib/crow/utility.h:560-594 | The same encoding, so that both encoders produce the same text |
| `Base64.AccumulatorStep` | src/util.cpp:146-151 | The accumulator drops its high bits, which are never needed again |
| `Base64.Base64Decode` | src/util.cpp:119-155 | Decodes as the bit stream says, although the accumulator wraps modulo 2^32 |
| `Base64.DecodeMeans` | src/util.cpp:119-155 | For every text: decoding succeeds exactly if it is letters of the alphabet and white space up to a padding character or the end, and gives the whole bytes that the bits of the letters fill, in order |
| `Base64.AlphabetIs` | src/util.cpp:46-47 | The letters are those of the standard's alphabet |
| `Base64.StrictRoundTrip` | src/util.cpp:119-155 | Decoding an encoding, with white space put in anywhere, gives the bytes back |
| `Base64.CrowDecode` | src/crowlib/crow/utility.h:611-684 | Decoding any text that encodes some bytes, in either alphabet and padded or not, gives these bytes; a lone padding character fails |
| `QueryString.EncodingDecodes` | src/crowlib/crow/query_string.h:144-170 | Every percent-encoding of a value decodes to the value |
| `QueryString.QsDecode` | src/crowlib/crow/query_string.h:144-170 | Decodes a value in place; nothing behind the NUL that ends it is touched |
| `QueryString.QsStrncmp` | src/crowlib/crow/query_string.h:52-95 | For any two keys: zero exactly if they stand for the same text up to the NUL that ends them, and a key of plain characters is not the beginning of one that is malformed behind it |
| `QueryString.QsParse` | src/crowlib/crow/query_string.h:98-141 | Up to 256 pairs, with any keys: all found, all decoded, none disturbed by another |
| `QueryString.Get` | src/crowlib/crow/query_string.h:173-201 | The decoded value of the first pair whose key matches, or nothing |
| `QueryString.WellEncodedMatch` | src/crowlib/crow/query_string.h:52-95 | Well-encoded keys match exactly if they decode to the same text |
| `QueryString.ParseAndGet` | src/crowlib/crow/query_string.h:333-373 | Parsing in place and looking a name up gives the value of the first pair with that name, whatever percent-encodings names and values were sent in |

## Left out

- Router.PerMethod.AddRule: requires fewer than 65535 rules and a pattern without NUL, since rule indices have 16 bits and a NUL would be taken for an empty key; blueprints, catch-all rules, middleware and the choice of HTTP method are not modelled.
- RouteIndex.Trie.FindFrom: where `strtoll`, `strtoull` and `strtod` stop is a parameter, and the converted numbers are kept as their text.
- HttpBody.CutsAgree: begins at the end of the header of a request that has a route, and ends where a header is parsed again, at the first byte of a trailer field or behind the message; what the header states do with these bytes, the Upgrade exit, the lenient flags and bodies read until the end of the stream are not modelled.
- HttpParser.BodyParser.OnMessageComplete: handlers answer at once, as all of this server's do; one that answers later, while the parser waits uncleared, is not modelled.
- HttpParser.ContentLength: covers one field value on one line; obsolete line folding is not modelled.
- JsonGrammar.LoadsGrammar: a number is kept as its text; what its conversion to floating point gives is a parameter, and an object is the list of its fields.
- JsonGrammar.LoadDump: covers null, booleans, 64-bit integers, byte strings, lists and objects; an object is the list of its fields, in the order in which they stand.
- JsonValue.DumpInternal: prints the fields of an object in the order of their insertion, where the original's hash map has an order of its own; the text of a floating-point number is a parameter, and infinities and values that are no number do not occur; the indented form of the dump is not modelled.
- JsonValue.Reload: without floating-point numbers, whose digits depend on rounding.
- Sha256Stream.SHA256.Digest: the first digest only; the object is used up, as in the original a second digest hashes the padding again.
- Difficulty.SolvePoW: runs for a given number of tries, since nothing guarantees that a counter proves the work; yielding to the event loop has no effect in the model.
- Difficulty.MeetsDifficulty: requires that a digest of zeros is not asked for more bits than it has, where the original reads behind it.
- Captcha.CaptchaServer.VerifyChallenge: the clock is an argument read in the same atomic step as the ledger, and the secret is never changed; the strength of the hash is not claimed.
- RoomServer.ChatServer.OnMessage: the message arrives parsed, with a missing field as an empty string; a `type` that is no string is not modelled. Peers are values in a map, not objects.
- RoomRuns.TokensBounded: requires fresh room ids and atomic activation; it does not bound the live members, which the token path does not check.
- RoomRuns.StepKeeps: each handler is one atomic step; interleavings inside a handler, failing disk writes, room names, time stamps of rooms, the bulk status check, entity tags and static pages are not modelled.
- WebSocket.MessageRead: the handshake, the write queue, and the answer to a close frame are not modelled; the two bytes of the first header read are assumed to arrive together, and the host is little-endian.
- Base64.CrowEncode: the URL-safe alphabet of the encoder is not modelled; the decoder's acceptance of it is.
- QueryString.QsStrncmp: requires that something stands behind a percent sign that ends a key, where the original reads past it. Fragments, lists and dictionaries of values are not modelled.
- Sockets, threads, locks, logging, configuration files, sessions, cookies, multipart bodies, templates, the other hash of the vendored stack and the web client apart from its proof of work are not modelled.
