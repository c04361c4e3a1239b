# Search front end: a verified model

This project models the logic of an HTTP front end for the Sphinx search server and proves
properties of it in Dafny 4.11. Each part follows the form of its source: classes whose methods
change fields, buffers that are rewritten in place, and loops with invariants, each tied to a
specification function about which the lemmas are proved. `dafny verify dfyconfig.toml` checks
everything.

| files | part |
|---|---|
| `JsonValue`, `JsonText`, `JsonStrings`, `JsonGrammar`, `JsonReader`, `JsonLexemes`, `JsonDocuments` | the JSON library: order on values, numbers and strings, the recursive-descent reader, and which documents it accepts |
| `JsonWriter`, `JsonLayout`, `JsonTokens`, `JsonReadBack`, `JsonRoundTrip` | the two writers, their layout, and reading back what was written |
| `ThreadPool` | the pool as a transition system over its locked regions, and the map of clients by thread |
| `Wire`, `SphinxResponse`, `SphinxRequest`, `SphinxReplay` | the searchd protocol: decoding a response in its own buffer, building a request of the computed length, reading it back |
| `ChunkedTransfer` | the incremental decoder of chunked bodies, and their writer |
| `ByteBuffer`, `Http`, `HttpRequest` | the growable buffer as a queue of bytes, percent-encoding, query strings and requests |
| `BatchAllocator` | free list and batches |
| `ConfigFile` | the configuration reader with its line of look-ahead, and the writer |
| `QueryFilter` | the filter syntax of queries |
| `Brackets` | the bracket matcher of the lint tool |
| `Wrappers`, `Seqs`, `StringOrder`, `HexTable` | an option type, equalities of sequences, the order of `strcmp`, the hexadecimal digits |

How the parts are stated:

- Writers are functions `Put...` that give the bytes of a value followed by a tail; decoders consume
  the same shape, so that a round trip is an equation for every tail.
- What a text means is given apart from the code that reads it: JSON documents as trees with their
  white space and comments, filters, requests, size lines and configurations as the parts a user may
  write in more than one way. The readers are proved to take every such text, and, where the row says
  so, no other. Digits and escapes have their values by their places in tables.
- The JSON round trip goes through token streams: both writers spell the same tokens, the reader
  rebuilds a value from any text that spells them, and the rebuilt value is the original exactly when
  it is canonical.
- The response decoder is specified by the decoded part of its buffer, which later steps only extend;
  everything that pointers into it read back as stays readable.
- The thread pool is proved safe on every run of its steps. The class methods compute the functions
  that the steps apply.

Where the code and its comments or promises differ, the model follows the code, and the difference
is a lemma: integers just above the unsigned range (`JsonText.WrapsAboveRange`), the lower bound of
the number of threads (`ThreadPool.KeepsMinIff`), chunks of 2^32 bytes and more
(`ChunkedTransfer.LastChunkExact`), keys of a query, which are not decoded although the comment at
src/http.c:180 says so (`Http.PairsBack`), blocks that do not divide a page
(`BatchAllocator.StaysInside`), and a configuration without a final newline
(`ConfigFile.UnendedReadsBack`), and the separators that the JSON reader takes behind a comment or an empty name
(`JsonDocuments.BeyondTheStandard`, `JsonDocuments.AcceptsExactly`). Each comes with the exact condition under which the code does what is
promised. The same holds for the end of a response: `pmax` adds the length of the whole block to the
place behind a leading warning (libsphinxclient/sphinxclient.c:1787 and 1650-1652), so that with a warning and fewer
answers than requests the loop goes on behind the block (`SphinxResponse.SphinxClient.Decode`).

An empty number in a filter list or range counts as 0
(src/sphinx_query_data.h:217-223), and the model does the same.

## Model

| member | source | states |
|---|---|---|
| JsonValue.EqualIsIdentity | libjson/jsoncpp.cpp:2139-2181 | operator== holds exactly of values with the same tree, at any depth |
| JsonValue.Trichotomy | libjson/jsoncpp.cpp:2077-2181 | exactly one of a < b, a == b and b < a holds, for trees of any depth with fewer than 2^31 members in each container |
| JsonValue.Transitive | libjson/jsoncpp.cpp:2077-2118 | operator< is transitive: type first, then number of members, then the members in map order |
| JsonValue.LessExact | libjson/jsoncpp.cpp:2101-2107 | arrays and objects are ordered by their sizes, and then by the first entry in which they differ, its key before its value |
| JsonValue.LessScalarExact | libjson/jsoncpp.cpp:2077-2099 | values of different kinds are ordered by their kinds, numbers by size, false before true, strings as strcmp does behind the null pointer |
| JsonValue.CompareIsThreeWay | libjson/jsoncpp.cpp:2066-2074 | compare gives 0 exactly on equal values, and its sign changes with its arguments |
| JsonValue.PutSorted | libjson/jsoncpp.cpp:2609-2627 | storing under a key keeps the keys of the map sorted, the stored value is found again, and the entries are the new one and all others as they were |
| StringOrder.Transitive | libjson/jsoncpp.cpp:1725-1730 | strcmp on keys is transitive, which the order of members needs |
| StringOrder.LessExact | libjson/jsoncpp.cpp:1725-1730 | strcmp is decided at the first place where the texts differ or the first one ends |
| JsonText.UintToString | libjson/jsoncpp.cpp:160-171 | the digits written backwards are the decimal numeral, they end at a NUL, and the 25-byte buffer is never left |
| JsonText.LargestIntToString | libjson/jsoncpp.cpp:3418-3429 | the text of every signed 64-bit integer, also of the smallest, whose negation wraps |
| JsonText.LargestUIntToString | libjson/jsoncpp.cpp:3432-3440 | the text of every unsigned 64-bit integer |
| JsonText.ScanMeaning | libjson/jsoncpp.cpp:766-784 | the digit loop keeps the value of what it has read, or stops exactly where the value passes the threshold or wraps |
| JsonText.IntegerExact | libjson/jsoncpp.cpp:742-792 | a digit string of any length, with or without a minus, is decoded to its value if and only if the value lies in the signed (negative) or unsigned (non-negative) 64-bit range |
| JsonText.WrapsAboveRange | libjson/jsoncpp.cpp:773-783 | 2^64 + 4 passes the threshold test because its last digit is small, and is read as 4 |
| JsonText.NumeralIsValue | libjson/jsoncpp.cpp:160-171 | the digits by their places, and the value of a numeral with any zeros in front |
| JsonText.ValueToQuotedString | libjson/jsoncpp.cpp:3503-3564 | the quoted text is the opening quote, each byte or its escape, and the closing quote; the shortcut without escapes gives the same |
| JsonText.Utf8RoundTrip | libjson/jsoncpp.cpp:100-135 | a decoder written from section 3 of RFC 3629 reads the bytes of codePointToUTF8 back as the scalar value, with any bytes behind them |
| JsonText.Utf8Complete | libjson/jsoncpp.cpp:100-135 | every byte sequence that decoder accepts is what codePointToUTF8 gives for its scalar value: no overlong forms, no surrogates |
| JsonText.UnescapeSpelled | libjson/jsoncpp.cpp:833-906 | every sequence of scalar values, each spelled raw, with a short escape, as \uXXXX or as a surrogate pair (section 7 of RFC 8259), is decoded to its UTF-8 text |
| JsonText.UnescapeEscaped | libjson/jsoncpp.cpp:833-932 | decodeString inverts the escaping of valueToQuotedString on every NUL-free byte string |
| JsonText.SpelledIsClosed | libjson/jsoncpp.cpp:624-637 | no quote inside a spelled string ends it, so readString stops at the closing quote |
| JsonReadBack.SpelledStringToken | libjson/jsoncpp.cpp:624-637 | a string token of any such spelling, whatever stands around it, ends at its closing quote and decodes to the UTF-8 text |
| JsonText.EscapedIsClosed | libjson/jsoncpp.cpp:624-637 | the same for every text that valueToQuotedString has escaped |
| JsonStrings.BodyExact | libjson/jsoncpp.cpp:833-932 | a string body without an inner quote is decoded if and only if it is a sequence of bytes, one-letter escapes, \uXXXX units (no high surrogate) and high surrogates with any second unit, and then to the text that tables give for these pieces; hexadecimal digits of either case |
| JsonStrings.LoneSurrogate | libjson/jsoncpp.cpp:113-120 | a unit from 0x800 on, also a low surrogate alone, is written as the three groups of its bits |
| JsonLexemes.AnyTokenRead | libjson/jsoncpp.cpp:434-506 | every token that is read, but the closing brace and comments, is a word, a numeral, a quoted text, a slash with one other character, or a single character |
| JsonLexemes.CommentsRead | libjson/jsoncpp.cpp:539-590 | what is skipped before a token is a sequence of comments of the two forms, each as short as its end mark allows |
| JsonLexemes.StringEndFound | libjson/jsoncpp.cpp:624-637 | a string ends at the first quote with no escaping backslash, or the document ends |
| JsonGrammar.ReadValue | libjson/jsoncpp.cpp:355-403 | terminates on every document; the cursor never moves back or past the end; it succeeds exactly when it adds no error |
| JsonGrammar.Recover | libjson/jsoncpp.cpp:949-963 | error recovery skips to a token of the wanted kind or to the end, and ends inside the document |
| JsonGrammar.Parse | libjson/jsoncpp.cpp:312-352 | parse returns true exactly when the error list is empty |
| JsonDocuments.AcceptsExactly | libjson/jsoncpp.cpp:311-739 | parse accepts a document if and only if it is a tree of words, numerals, strings, arrays, objects and comments, laid out with any white space and followed by anything, and then gives the value of that tree; the trees include what readObject takes besides RFC 8259 |
| JsonDocuments.BeyondTheStandard | libjson/jsoncpp.cpp:647-693 | what is accepted besides RFC 8259, on one text: behind a comment a bracket passes for the comma, and the object ends behind it because its last name is empty |
| JsonDocuments.ReadText | libjson/jsoncpp.cpp:311-352 | a fresh Reader, its class with its cursor and node stack, does just that with every text |
| JsonDocuments.ReadTree | libjson/jsoncpp.cpp:355-739 | readValue on the tokens of a tree, wherever they stand, gives the value of the tree and stops behind its last token |
| JsonDocuments.TreeRead | libjson/jsoncpp.cpp:355-739 | whatever readValue takes without an error is comments and a tree |
| JsonDocuments.NumeralExact | libjson/jsoncpp.cpp:742-792 | every numeral: sscanf is asked exactly if there is a point, an exponent letter or an inner sign; otherwise the value is an int up to maxInt, a uint up to 2^64 - 1 |
| JsonDocuments.CStringIs | libjson/jsoncpp.cpp:1594-1604 | a stored text is what stands before its first NUL |
| JsonReader.Reader.GetNextChar | libjson/jsoncpp.cpp:984-989 | one character is taken, or 0 at the end without moving |
| JsonReader.Reader.SkipBlanks | libjson/jsoncpp.cpp:510-520 | the cursor stops at the first character that is not white space |
| JsonReader.Reader.Match | libjson/jsoncpp.cpp:524-535 | the pattern is consumed exactly when it stands at the cursor |
| JsonReader.Reader.ReadString | libjson/jsoncpp.cpp:624-637 | the cursor moves behind the first quote that no backslash escapes |
| JsonReader.Reader.ReadComment | libjson/jsoncpp.cpp:539-563 | both comment forms, without attachment |
| JsonReader.Reader.ReadNumber | libjson/jsoncpp.cpp:613-621 | the longest run of digits, signs, points and exponent letters |
| JsonReader.Reader.GetToken | libjson/jsoncpp.cpp:434-506 | the token at the cursor, as the token function says, for every character |
| JsonReader.Reader.SkipCommentTokens | libjson/jsoncpp.cpp:407-421 | the first token that is not a comment, or simply the next one in strict mode |
| JsonReader.Reader.RecoverFromError | libjson/jsoncpp.cpp:950-963 | the errors recorded while skipping are dropped, and the cursor is where recovery says |
| JsonReader.Reader.DecodeNumberToken | libjson/jsoncpp.cpp:742-792 | the number of a token is stored on the top of nodes_, or an error is recorded |
| JsonReader.Reader.ScanIntegerToken | libjson/jsoncpp.cpp:763-784 | the digit loop computes what its closed form describes, and changes nothing |
| JsonReader.Reader.DecodeUnicodeEscapeSequence | libjson/jsoncpp.cpp:909-932 | four hexadecimal digits, or which of the two errors |
| JsonReader.Reader.DecodeUnicodeCodePoint | libjson/jsoncpp.cpp:879-906 | one escape, or a surrogate pair combined by the formula of UTF-16 |
| JsonReader.Reader.DecodeStringToken | libjson/jsoncpp.cpp:834-876 | the loop over the string computes its decoded text or its first error |
| JsonReader.Reader.ParseValue | libjson/jsoncpp.cpp:355-403 | every path replaces only the top of nodes_ and leaves its depth as it was |
| JsonReader.Reader.ParseMember | libjson/jsoncpp.cpp:680-689 | the value of a member or element is read in place and stored under its key |
| JsonReader.Reader.ParseObject | libjson/jsoncpp.cpp:640-696 | the loop of readObject computes the object, or its errors, that the grammar says |
| JsonReader.Reader.ParseArray | libjson/jsoncpp.cpp:699-739 | the loop of readArray computes the array, or its errors, that the grammar says |
| JsonReader.Reader.ParseDocument | libjson/jsoncpp.cpp:312-352 | parse ends on every document with one value on nodes_ and the cursor inside the document, and is true exactly when errors_ is empty |
| JsonWriter.FastWriter.Write | libjson/jsoncpp.cpp:3589-3597 | document_ becomes the compact text of the value and a newline |
| JsonWriter.FastWriter.WriteValue | libjson/jsoncpp.cpp:3599-3655 | each value appends its text to document_ |
| JsonWriter.StyledWriter.Write | libjson/jsoncpp.cpp:3668-3680 | document_ becomes the indented text of the value and a newline |
| JsonWriter.StyledWriter.WriteValue | libjson/jsoncpp.cpp:3682-3741 | each value appends its text, and the indentation is restored |
| JsonWriter.StyledWriter.WriteArrayValue | libjson/jsoncpp.cpp:3743-3793 | arrays are written on one line or on several, as isMultineArray decides |
| JsonWriter.StyledWriter.IsMultineArray | libjson/jsoncpp.cpp:3796-3824 | the decision, and the texts of the elements in childValues_ when it is for one line |
| JsonWriter.StyledWriter.WriteIndent | libjson/jsoncpp.cpp:3837-3849 | a new line is begun unless the text already stands at an indentation |
| JsonWriter.StyledWriter.Unindent | libjson/jsoncpp.cpp:3867-3872 | the last indentation is removed; it was there |
| JsonLayout.StyledIsLines | libjson/jsoncpp.cpp:3682-3872 | the styled text is its lines joined by newlines: each member, and each element of an array of several lines, begins a line of its own behind three spaces for each enclosing container, and the closing bracket stands on a line of its own at the depth of its opener |
| JsonLayout.OnOneLineIff | libjson/jsoncpp.cpp:3796-3824 | an array is on one line if and only if its elements are scalars or empty, its text on one line is shorter than 74 and so are three characters for each element |
| JsonLayout.WriteStyled | libjson/jsoncpp.cpp:3668-3872 | a fresh StyledWriter gives these lines |
| JsonLayout.FastIsTokens | libjson/jsoncpp.cpp:3599-3655 | the compact text is the tokens of the value one behind the other, with a space behind colons in the YAML-compatible form |
| JsonLayout.WriteCompact | libjson/jsoncpp.cpp:3589-3655 | a fresh FastWriter gives this text |
| JsonTokens.SpellsConcat | libjson/jsoncpp.cpp:434-506 | text that spells one token stream followed by text that spells another spells both, if no numeral runs into a numeral |
| JsonReadBack.ReadBack | libjson/jsoncpp.cpp:355-739 | readValue of any text that spells the tokens of a value rebuilds the canonical form of that value and stops behind its last token |
| JsonReadBack.ParseSpelled | libjson/jsoncpp.cpp:311-352 | parse of such a text succeeds without errors |
| JsonRoundTrip.SameTokens | libjson/jsoncpp.cpp:3589-3872 | the two writers, and the YAML-compatible form, give the same token stream for every value, whatever isMultineArray chooses |
| JsonRoundTrip.WrittenTextParses | libjson/jsoncpp.cpp:311-351 | every text a writer gives for a value is parsed to its canonical form, without errors |
| JsonTokens.CanonIdentity | libjson/jsoncpp.cpp:3600-3655 | the canonical form is the value itself exactly when its arrays are dense, its integers have the type that decodeNumber chooses, and its reals survive printf and scanf |
| JsonRoundTrip.WriteAndRead | libjson/jsoncpp.cpp:311-3872 | writing with either writer and reading with a fresh reader succeeds, and gives the value back exactly when it is canonical |
| ThreadPool.CThreadPool.constructor | libthreadpool/CThread.cc:18-29 | m_min idle threads, an empty queue of at most 100 tasks |
| ThreadPool.CThreadPool.Create | libthreadpool/CThread.cc:75-90 | the new threads are appended to the idle vector and counted |
| ThreadPool.CThreadPool.MoveToIdle | libthreadpool/CThread.cc:49-60 | the thread is taken out of the busy vector and appended to the idle one |
| ThreadPool.CThreadPool.MoveToBusy | libthreadpool/CThread.cc:62-73 | the reverse move |
| ThreadPool.CThreadPool.MoveOutIdleThread | libthreadpool/CThread.cc:31-47 | an idle thread is removed, counted down and reported; any other is left alone |
| ThreadPool.CThreadPool.AddTask | libthreadpool/CThread.cc:95-115 | a task is refused exactly when the queue is full; otherwise it is appended and the wanted threads are created |
| ThreadPool.CThreadPool.EnterLocked | libthreadpool/CThread.cc:131-140 | a worker without tasks gives up its busy state before it waits |
| ThreadPool.CThreadPool.TakeLocked | libthreadpool/CThread.cc:142-161 | the first task is taken when the callback allows it, and the worker becomes busy |
| ThreadPool.GrowsToQueue | libthreadpool/CThread.cc:101-111 | threads are added only when the queue is more than twice as long as there are threads, up to one for each task or m_max |
| ThreadPool.RemoveMembers | libthreadpool/CThread.cc:37-47 | erasing what find found removes that thread and no other |
| ThreadPool.StepMembership | libthreadpool/CThread.cc:31-90 | every step keeps the two vectors a partition of the live workers by their doing flag, so both erases find their thread |
| ThreadPool.StepOrder | libthreadpool/CThread.cc:95-161 | every step keeps the accepted tasks equal to the taken ones followed by the queue, and the queue within its bound |
| ThreadPool.StepConservation | libthreadpool/CThread.cc:118-201 | every step keeps each taken task finished or in the hands of exactly one worker |
| ThreadPool.StepInv | libthreadpool/CThread.cc:118-201 | every step of every worker and producer keeps the whole invariant |
| ThreadPool.RunInv | libthreadpool/CThread.cc:95-201 | so does every run, of any length and interleaving; the histories only grow |
| ThreadPool.Safety | libthreadpool/CThread.cc:95-201 | on every run: tasks are taken at most once and in the order accepted; accepted = queued + in flight + finished; a rejected task is never taken; queue and number of running tasks keep their bounds |
| ThreadPool.VectorsPartition | libthreadpool/CThread.cc:31-115 | on every run: idle and busy are duplicate-free and disjoint, m_thread_num is their total and at most m_max, and only live workers have a client |
| ThreadPool.KeepsMinIff | libthreadpool/CThread.cc:95-188 | whatever the threads do, m_thread_num of a pool with m_min <= m_max stays at m_min or more on every run if and only if m_min is 0, m_max is m_min, or the queue holds at most 2 * m_min tasks |
| ThreadPool.ThreadNumAtLeastMin | libthreadpool/CThread.cc:186-188 | what the comparison would have to be: m_thread_num stays at m_min or more on every run whose departures are decided against the count without the workers already leaving |
| ThreadPool.FallsBelowMin | libthreadpool/CThread.cc:186-188 | from any state of a run, the departures under way bring m_thread_num below m_min exactly when they are more than the threads beyond m_min |
| ThreadPool.ThreadNumBelowMin | libthreadpool/CThread.cc:186-188 | two idle workers of a pool with one spare thread both read m_thread_num before either takes the lock, and it falls below m_min |
| ThreadPool.TwoIdlersReached | libthreadpool/CThread.cc:95-188 | such a state is reached from a fresh pool by three tasks and two refusals of the before-run callback |
| ThreadPool.ClientMap.GetClient | src/main.cc:275-297 | the client of a thread is found, or created and kept in the map when creation succeeds; the clients of other threads stay, and without a client the map stays as it was |
| ThreadPool.ClientMap.ReleaseClient | src/main.cc:308-330 | the client of a thread, and no other, leaves the map |
| ThreadPool.StepClients | src/main.cc:275-330 | every step keeps at most one client for each live worker and none for one that has left |
| ThreadPool.SameClientAgain | src/main.cc:275-330 | a worker that has found or created a client finds this client on every later state of every run until it gives it back or leaves, and no other worker is given it |
| ThreadPool.ClientGone | src/main.cc:308-330 | giving a client back, and leaving, take this client and no other out of the map |
| ThreadPool.NeverStuck | libthreadpool/CThread.cc:129-199 | every live worker can always take a step of its loop; at the top of it, it waits exactly if it cannot look for a task |
| ThreadPool.CanFinishIff | libthreadpool/CThread.cc:118-201 | in every state of every run the workers alone can finish all accepted tasks if and only if nothing is queued or some worker has not decided to leave |
| Wire.LoadedFromWire | libsphinxclient/sphinxclient.c:1543-1549 | four bytes copied from the wire and swapped by ntohl are the number sent, on machines of either byte order |
| Wire.StoredForWire | libsphinxclient/sphinxclient.c:1022-1032 | a number swapped by htonl lies in memory in network order, on machines of either byte order |
| SphinxResponse.SphinxClient.UnpackInt | libsphinxclient/sphinxclient.c:1543-1549 | takes four bytes and gives the integer sent |
| SphinxResponse.SphinxClient.UnpackQword | libsphinxclient/sphinxclient.c:1565-1571 | takes the high and the low word |
| SphinxResponse.SphinxClient.UnpackStr | libsphinxclient/sphinxclient.c:1552-1562 | the string shifted one byte left and its NUL lie in the consumed part, and nothing before or behind is changed |
| SphinxResponse.SphinxClient.SwapWords | libsphinxclient/sphinxclient.c:1866-1867 | each word of an attribute is swapped in place once; everything before and behind stays |
| SphinxResponse.SphinxClient.UnpackMva | libsphinxclient/sphinxclient.c:1862-1869 | the count and the values read back as words of the machine at the returned pointer |
| SphinxResponse.SphinxClient.UnpackAttr | libsphinxclient/sphinxclient.c:1858-1875 | each attribute is decoded by the type of its column |
| SphinxResponse.SphinxClient.UnpackMatch | libsphinxclient/sphinxclient.c:1844-1875 | identifier, weight and attributes fill their slots in order |
| SphinxResponse.SphinxClient.UnpackTable | libsphinxclient/sphinxclient.c:1809-1896 | a result is decoded unless one of its arrays is too large to allocate |
| SphinxResponse.SphinxClient.UnpackResult | libsphinxclient/sphinxclient.c:1791-1905 | statuses with a warning, with an error and without |
| SphinxResponse.SphinxClient.RunQueries | libsphinxclient/sphinxclient.c:1785-1907 | one answer is read for each request while there are any, and reads back as sent once the last is decoded; it fails exactly when an array cannot be allocated, and goes on behind the block exactly when the results start behind its first byte and answers are missing |
| SphinxResponse.SphinxClient.Decode | libsphinxclient/sphinxclient.c:1640-1653 | for a response with or without a leading warning, which still reads back at the end: nothing behind the block is read if and only if an array cannot be allocated, there is no warning, or no answer is missing |
| SphinxResponse.AnswersStay | libsphinxclient/sphinxclient.c:1789-1905 | what has been decoded stays readable however the rest of the buffer is rewritten |
| SphinxResponse.AllocatesIff | libsphinxclient/sphinxclient.c:1719-1733 | the answers whose arrays are allocated, by their numbers of fields, columns, words and matches |
| SphinxResponse.TextReads | libsphinxclient/sphinxclient.c:1552-1562 | a returned string, read up to its NUL, is the sent one, up to its own first NUL |
| SphinxResponse.MatchReads | libsphinxclient/sphinxclient.c:1918-1927 | sphinx_get_id and sphinx_get_weight give the identifier and the weight sent, for every match |
| SphinxResponse.AttrReads | libsphinxclient/sphinxclient.c:1930-1954 | sphinx_get_int, sphinx_get_float and sphinx_get_mva give what was sent, for every match and column |
| SphinxRequest.CalcReqLen | libsphinxclient/sphinxclient.c:955-1006 | the computed length is that of the request, for every setting and protocol version |
| SphinxRequest.RequestHasLength | libsphinxclient/sphinxclient.c:955-1074 | the length formula agrees with the layout of the request |
| SphinxRequest.Request.SendBytes | libsphinxclient/sphinxclient.c:1009-1019 | the bytes are written at the pointer, inside the buffer |
| SphinxRequest.Request.SendInt | libsphinxclient/sphinxclient.c:1022-1032 | an integer in network order |
| SphinxRequest.Request.SendStr | libsphinxclient/sphinxclient.c:1048-1054 | the length and the bytes; NULL is sent as the empty string |
| SphinxRequest.Request.SendQword | libsphinxclient/sphinxclient.c:1057-1061 | the high word, then the low one |
| SphinxRequest.Request.SendFilter | libsphinxclient/sphinxclient.c:1116-1155 | a filter by its type; an unknown type has no values |
| SphinxRequest.Request.SendRequest | libsphinxclient/sphinxclient.c:1101-1207 | the whole request is written and the pointer ends with it |
| SphinxRequest.BuildRequest | libsphinxclient/sphinxclient.c:1088-1207 | the buffer has exactly the computed length and is filled to its end |
| SphinxRequest.SphinxClient.AddQuery | libsphinxclient/sphinxclient.c:1077-1217 | the request is appended to the batch unless the batch is full; earlier requests stay |
| SphinxRequest.SphinxClient.SendBatch | libsphinxclient/sphinxclient.c:1747-1776 | the header and the requests in order; the length in the header is the number of bytes behind it |
| SphinxRequest.RequestThen | libsphinxclient/sphinxclient.c:1101-1207 | a request does not depend on what is sent behind it |
| SphinxReplay.FilterBack | libsphinxclient/sphinxclient.c:1116-1155 | a filter is read back; before version 0x114 its values come back as their low 32 bits |
| SphinxReplay.RequestBack | libsphinxclient/sphinxclient.c:1101-1207 | reading integers and strings in the same order recovers every field that the protocol version sends, for every client state |
| SphinxReplay.BatchBack | libsphinxclient/sphinxclient.c:1761-1776 | a whole batch is read back as its queries, in order |
| ChunkedTransfer.EvBuffer.Readln | src/evhttp.c.bk:831 | a line ends at LF, with an optional CR before it; without LF nothing is taken |
| ChunkedTransfer.EvHttpRequest.HandleChunkedRead | src/evhttp.c.bk:822-885 | the loop computes the decoder function on the state and the buffer |
| ChunkedTransfer.EvHttpReply.SendReplyChunk | src/evhttp.c.bk:2339-2362 | size line, data and line end are appended, and the data moves out of its buffer; nothing for an empty one |
| ChunkedTransfer.EvHttpReply.SendReplyEnd | src/evhttp.c.bk:2365-2391 | the zero chunk and the empty trailer |
| ChunkedTransfer.SplitLaw | src/evhttp.c.bk:822-885 | reading a and then b is reading both at once, from every state, for every input |
| ChunkedTransfer.Receive | src/evhttp.c.bk:822-885 | whatever way the bytes are cut into arrivals, the outcome is that of one call |
| ChunkedTransfer.ChunkSizeBack | src/evhttp.c.bk:841-844 | strtoll reads back what %x prints |
| ChunkedTransfer.StrtollSpelled | src/evhttp.c.bk:841 | strtoll on every spelling of a hexadecimal number: blanks, sign, 0x, leading zeros and either case; the value saturates at the ends of a long long |
| ChunkedTransfer.SizeSpelled | src/evhttp.c.bk:841-848 | a size line is taken as this value unless it is negative or anything but a space stands behind the digits |
| ChunkedTransfer.SizeMissing | src/evhttp.c.bk:841-848 | a size line without digits is malformed, unless it begins with a space: then it counts as 0 |
| ChunkedTransfer.SpelledChunk | src/evhttp.c.bk:822-885 | from any state between chunks, a chunk whose size is spelled in any of these ways, with an extension behind a space and either line end, is collected, or refused as too long at the limit exactly |
| ChunkedTransfer.MalformedSize | src/evhttp.c.bk:841-848 | a malformed size line stops the decoder behind that line |
| ChunkedTransfer.ChunksRead | src/evhttp.c.bk:822-885 | chunks are collected and counted, or the body is refused as too long, at the limit exactly |
| ChunkedTransfer.BodyRead | src/evhttp.c.bk:822-885 | a written body is collected up to its trailer if and only if it is within the limit |
| ChunkedTransfer.OnlyAfterZeroChunk | src/evhttp.c.bk:857-860 | before the zero chunk has arrived in full the decoder expects more |
| ChunkedTransfer.Transfer | src/evhttp.c.bk:822-885 | writer and decoder together, for every list of chunks and every cut into arrivals |
| ChunkedTransfer.SizeLinesBound | src/evhttp.c.bk:822-885 | the bytes of a body that is read to its end are fewer than 16^(k-2), where k counts the other bytes taken |
| ChunkedTransfer.LastChunkExact | src/evhttp.c.bk:2354-2355 | from any state between chunks, a last chunk of any length is transferred if and only if its size is below 2^32 and the body is within the limit |
| ChunkedTransfer.LongLastChunk | src/evhttp.c.bk:2354-2355 | the same for a whole body whose chunks before the last are below 2^32 bytes |
| ChunkedTransfer.AnnouncedSize | src/evhttp.c.bk:2354-2355 | the size line gives the size of a chunk exactly when it is below 2^32 |
| ChunkedTransfer.LongChunkIsLost | src/evhttp.c.bk:2354-2355 | what happens to a chunk of a multiple of 2^32 bytes: it is announced as the last one, and its data is lost |
| ByteBuffer.Buffer.constructor | src/buffer.c:14-17 | a new buffer is empty and owns nothing |
| ByteBuffer.Buffer.Align | src/buffer.c:147-151 | the bytes move to the start of the block and stay the same |
| ByteBuffer.Buffer.Doubled | src/buffer.c:165-168 | doubling ends with enough space, at most twice what is needed or 256 |
| ByteBuffer.Buffer.Expand | src/buffer.c:153-177 | the contents stay and there is room; the block is kept when its free space suffices |
| ByteBuffer.Buffer.Add | src/buffer.c:179-190 | append |
| ByteBuffer.Buffer.Drain | src/buffer.c:193-204 | drop a prefix, or everything |
| ByteBuffer.Buffer.Remove | src/buffer.c:96-104 | take a prefix |
| ByteBuffer.Buffer.AddBuffer | src/buffer.c:35-52 | everything moves, in the branch that swaps the structures and in the one that copies |
| ByteBuffer.Buffer.AddVprintf | src/buffer.c:54-83 | the printed text is appended in at most two passes |
| ByteBuffer.Buffer.Readline | src/buffer.c:107-142 | a line up to CR, LF, CR LF or LF CR is taken; without an end nothing is |
| Http.EncodeUri | src/http.c:125-151 | the encoded text and a NUL, built on a buffer |
| Http.DecodeUri | src/http.c:70-98 | the decoded bytes; an incomplete percent sign stands for itself |
| Http.DecodeBack | src/http.c:70-151 | decoding inverts encoding on every byte string, with spaces as plus or as %20; the unreserved set is that of section 2.3 of RFC 3986 |
| Http.DecodeHex | src/http.c:84-93 | a percent sign and two hexadecimal digits, each of either case and given by its place in a table, decode to the byte they number |
| Http.LonePercent | src/http.c:84-93 | a percent sign with anything else behind it stands for itself |
| Http.SpelledBack | src/http.c:70-98 | every value decodes to the bytes it spells, each raw, as a plus sign, or in hexadecimal digits of either case |
| Http.UnreservedAre | src/http.c:100-123 | the characters that are not encoded are those of section 2.3 of RFC 3986 |
| Http.EncodedAs | src/http.c:125-151 | every other byte is encoded as two upper-case digits, or a space as a plus sign |
| Http.ParseQueryStr | src/http.c:183-233 | the pairs in order, or an error that clears them |
| Http.QueryBack | src/http.c:183-233 | a query built from pairs is parsed to the encoded keys and the decoded values; an empty key is an error |
| Http.SpelledQueryBack | src/http.c:183-233 | every query of non-empty keys and values spelled in any of these ways gives the keys and the bytes of the values, up to a NUL |
| Http.QueryExact | src/http.c:192-219 | a query is taken if and only if each of its arguments has a key before an equals sign, but for an empty one at the end |
| Http.PairsBack | src/http.c:209-219 | the pairs come back if and only if every key is non-empty and needs no encoding and no value holds a NUL, since keys are not decoded |
| Http.CutBack | src/main.cc:875-898 | the cut finds the query between the first question mark and the last number sign if it is shorter than 4096 bytes, and fails otherwise |
| Http.SearchUriBack | src/main.cc:875-901 | cut and parser together on the URI of a search: the pairs come back exactly as PairsBack says, if the query is shorter than 4096 bytes |
| HttpRequest.StrTok | src/http.c:35 | strtok_r with a space: leading spaces are skipped, the token ends at the next one |
| HttpRequest.InitLineOf | src/http.c:33-65 | method, URI and version of a request line, or the null pointer that is dereferenced |
| HttpRequest.AddHeaderLine | src/http.c:263-280 | the name up to the colon and the value behind its leading spaces |
| HttpRequest.ReadHeaders | src/http.c:312-323 | headers up to an empty line, in order; the rest stays in the buffer |
| HttpRequest.HttpRequestParse | src/http.c:292-326 | the parser computes the request and leaves the rest of the buffer |
| HttpRequest.SearchRequestBack | src/main.cc:875-901 | from pairs to the bytes of a request and back through request parser, cut and query parser: the pairs come back if and only if the encoded query is shorter than 4096 bytes and every pair is plain |
| HttpRequest.PairsOf | src/main.cc:875-901 | the three calls of the handler, on a buffer |
| HttpRequest.RequestBack | src/http.c:33-65 | a printed GET or HEAD request of version 1.0 or 1.1 is recovered with its headers in order, and exactly its body is left |
| HttpRequest.RawLineMeant | src/http.c:33-65 | a request line of any method and version, with any spaces between and around its words |
| HttpRequest.TooFewWords | src/http.c:46-53 | with fewer than three words a null pointer is dereferenced |
| HttpRequest.RawRequestBack | src/http.c:292-326 | every request is taken apart, with any blanks, any of the four line ends, and any methods and versions; what is behind the empty line, or an incomplete last line, is left in the buffer |
| HttpRequest.NoColonBreaks | src/http.c:263-270 | a header line without a colon, wherever it stands, dereferences a null pointer |
| BatchAllocator.Allocator.constructor | libjson/jsoncpp.cpp:1118-1127 | one dummy batch without blocks |
| BatchAllocator.Allocator.AllocateBlock | libjson/jsoncpp.cpp:1141-1165 | the head of the free list, or the next block of a batch with space, or of a new batch |
| BatchAllocator.Allocator.NextBatch | libjson/jsoncpp.cpp:1151-1153 | the search stops at the first older batch with space |
| BatchAllocator.Allocator.ReleaseBlock | libjson/jsoncpp.cpp:1169-1174 | the block becomes the head of the free list, whose links lie in the released blocks |
| BatchAllocator.RunInv | libjson/jsoncpp.cpp:1141-1174 | every run of allocations and releases keeps the invariant |
| BatchAllocator.Safety | libjson/jsoncpp.cpp:1141-1174 | live blocks lie inside their batches and do not overlap, and live + released + uncut blocks are all there are |
| BatchAllocator.NewBatchOnlyWhenAllLive | libjson/jsoncpp.cpp:1155-1160 | a new batch is allocated only when every block of every batch is live |
| BatchAllocator.StaysInside | libjson/jsoncpp.cpp:1162-1196 | every run stays inside the batches if and only if objectPerAllocation divides objectsPerPage |
| ConfigFile.IStream.Getline | src/config.cc:66 | std::getline: at the end of the stream it fails and leaves the string as it was |
| ConfigFile.Config.ReadValue | src/config.cc:82-99 | the loop over the lines of a value, and the line that it has read ahead |
| ConfigFile.Config.Read | src/config.cc:49-109 | the reader computes the contents that the text means |
| ConfigFile.Config.Write | src/config.cc:34-41 | one entry after the other |
| ConfigFile.TrimInk | src/config.cc:28-32 | a line is blank exactly when trimming leaves nothing |
| ConfigFile.ValueEnds | src/config.cc:83-99 | a value ends where a blank line, the next entry or the end is read, and the reader goes on as if it had not looked ahead |
| ConfigFile.LoadAll | src/config.cc:49-109 | entries of one or several lines, with any white space around their delimiters, and with blank lines and lines without an entry between them, are stored one after the other |
| ConfigFile.CommentsIgnored | src/config.cc:66-91 | every text is loaded as the same text without its comments, whether they stand behind an entry, behind a line of a value or on lines of their own |
| ConfigFile.ReadCommented | src/config.cc:49-109 | from a fresh configuration the class reads entries in any spelling and with any comments as these entries |
| ConfigFile.LoadEntries | src/config.cc:49-109 | the entries that the writer writes are read back one after the other |
| ConfigFile.WriteAndRead | src/config.cc:34-109 | a configuration written and read into an empty one is the same, whatever the order of its entries |
| ConfigFile.LastLineTwice | src/config.cc:83-98 | what every configuration is read as without the newline at its end: the last line of a value of several lines is there twice |
| ConfigFile.UnendedReadsBack | src/config.cc:49-109 | such a configuration is read back as it is if and only if its last value is a single line |
| QueryFilter.ReadFilter | src/sphinx_query_data.h:130-228 | one filter, by its first characters; which errors there are, given the comparison of the bounds of a float range |
| QueryFilter.ReadValues | src/sphinx_query_data.h:206-225 | the loop over a list of values |
| QueryFilter.ReadRange | src/sphinx_query_data.h:143-203 | the two bounds of a range, and when it is refused |
| QueryFilter.SphinxQueryData.ReadFilters | src/sphinx_query_data.h:128-229 | all filters in order, or the first error |
| QueryFilter.ValueFilterBack | src/sphinx_query_data.h:206-225 | attr:v1,...,vn, with or without !, with blanks and leading zeros in numbers of at most nine digits, gives that name, flag and list of values |
| QueryFilter.TakenItem | src/sphinx_query_data.h:216-223 | every item of a list that is taken is written in this way |
| QueryFilter.ListFilterExact | src/sphinx_query_data.h:206-225 | a list of any items is the list of their values, or a format error if one of them is none |
| QueryFilter.RangeFilterExact | src/sphinx_query_data.h:143-193 | an integer range with any brackets, leading zeros, blanks and bounds of any length: the bounds are those of atoi, saturated as a long and cut to an int, and moved by one for a round bracket; it is refused exactly if they cross |
| QueryFilter.DecimalBack | src/sphinx_query_data.h:187-188 | atoi on digits: the value of a numeral, its digits by their places, with any zeros in front |
| QueryFilter.DigitsAre | src/sphinx_query_data.h:187-188 | every digit string is such a numeral |
| QueryFilter.RangeFilterBack | src/sphinx_query_data.h:143-193 | while the adjusted bounds fit an int, a range is accepted exactly when some integer lies in it, and then int_min..int_max are exactly those integers |
| QueryFilter.RangeMeantIff | src/sphinx_query_data.h:185-193 | a range with an integer in it becomes the range that is meant if and only if the adjusted upper bound fits an int |
| QueryFilter.OtherRangeBack | src/sphinx_query_data.h:158-203 | a range with a point in a bound is a float range, accepted when its bounds compare; any other character is a format error |
| QueryFilter.TrailingTextRefused | src/sphinx_query_data.h:166-173 | text behind the closing bracket of any range is a format error |
| QueryFilter.NoColon | src/sphinx_query_data.h:131-138 | a filter without a colon behind its name is a format error |
| QueryFilter.NothingBehindColon | src/sphinx_query_data.h:139-142 | so is one with nothing but blanks behind the colon |
| QueryFilter.FiltersExact | src/sphinx_query_data.h:128-229 | either every filter is taken, in order, or the first that is not gives the error: out of range for an empty one, a format error for any other |
| Brackets.GetTextInside | cpplint/cpplint.py:2470-2500 | the stack loop computes how far the text is read |
| Brackets.BracketKinds | cpplint/cpplint.py:2470-2471 | the three kinds of brackets and their closers |
| Brackets.NestedScan | cpplint/cpplint.py:2487-2495 | well nested text leaves the stack as it was |
| Brackets.ScanNested | cpplint/cpplint.py:2487-2495 | when the expected closer is found, the text before it is well nested |
| Brackets.TextInsideIff | cpplint/cpplint.py:2474-2500 | t is returned if and only if the text is t, the closer and anything, with t well nested over the three kinds of brackets; None for every other text |
| Brackets.InsideIsUnique | cpplint/cpplint.py:2474-2500 | there is at most one such t |

## Left out

General

- Memory allocation succeeds, except where the source itself refuses a size; sizes and lengths are
  unbounded integers, so that wrap-around of `size_t` and `int` lengths at 2^31 and beyond is not
  modelled unless a contract says so. Recursion depth is not limited.
- Characters are bytes below 256 where that matters. C strings end at their first NUL.
- Sockets, epoll, files, logging, signals, daemonising and HTML pages: input and output only. Reading
  and writing the network are whole-buffer operations.

JSON

- JsonTokens.CanonIdentity: reals are mathematical reals and printf and scanf are parameters, so it
  says when a real survives, not that every double does; infinities, NaN and negative zero are not values of the model.
- JsonValue.Trichotomy: reals are ordered as mathematical reals, and each container has fewer than 2^31
  members, because the code subtracts sizes in a 32-bit int.
- JsonGrammar.Recover: after the first error, which further errors and which partial value are left is
  said by the functions of the grammar only.
- JsonReader.Reader.ReadComment: the text of a comment is skipped, not attached to a value.
- JsonRoundTrip.WriteAndRead: strings and keys free of NUL and not null pointers, and arrays of at most
  0x2AAAAAAA elements, for which `size*3` fits an int.
- JsonWriter.StyledWriter.IsMultineArray: the total length is an unbounded integer.
- The pointers on the reader's node stack are modelled by the values they point to: popping stores the
  value back under its key. Aliasing between them is not expressed.
- Error messages are named, not spelled; line and column numbers and formatted messages are left out.
- Comment attachment in reader and writers, the stream writer, which nearly repeats the styled one,
  paths, iterators, and the branches with internal maps.

Thread pool

- ThreadPool.Safety: one step is one region under the lock or the code between two of them. The time
  limit of the wait is a choice, so nothing is said about when a task is taken or a thread leaves.
- ThreadPool.CanFinishIff: that the accepted tasks can be finished, not that a scheduler lets the workers do so.
- ThreadPool.FallsBelowMin: about one state of a run. `ThreadPool.KeepsMinIff` speaks of the pool as it is built.
- ThreadPool.ThreadNumAtLeastMin: its guard is not in the code, which is why `ThreadPool.KeepsMinIff` needs another condition.
- The constructor runs before any worker; changing `m_max_task` during a run, `StopAll`, which its own
  comment forbids to call, and exceptions of a task are left out.
- Thread identifiers may be used again after a thread has left, never while it lives.

Sphinx client

- SphinxResponse.SphinxClient.RunQueries: the bytes are those of well-formed answers. What the decoder
  does with other bytes is undefined in C, since it checks its end only after each answer.
- SphinxResponse.SphinxClient.Decode: the statuses that keep the response. The two error statuses copy
  the message into a fixed buffer and are left out.
- SphinxRequest.SphinxClient.SendBatch: the length of the batch fits 32 bits, which the code does not check.
- SphinxReplay.RequestBack: fields that a protocol version does not send, and the unused fields of a
  filter, come back empty; the definition of what is seen says which.
- Floats are their 32-bit patterns. Excerpts, attribute updates, keywords and status requests repeat
  the same encoding and are left out, as are the setters of the client.

HTTP

- ChunkedTransfer.Transfer: chunks below 2^32 bytes and bodies below 2^64; without a chunk callback. For
  a longer chunk that is the last one `ChunkedTransfer.LongLastChunk` gives the exact condition. Before
  other chunks its lost data may hold anything, also size lines that make up for it, so nothing is claimed.
- ChunkedTransfer.ChunksRead: chunks below 2^32 bytes, as for `Transfer`.
- ChunkedTransfer.BodyRead: chunks below 2^32 bytes, as for `Transfer`.
- ChunkedTransfer.OnlyAfterZeroChunk: chunks below 2^32 bytes, as for `Transfer`.
- ChunkedTransfer.LongChunkIsLost: one case of `ChunkedTransfer.LastChunkExact`, with what is lost.
- ChunkedTransfer.EvBuffer.Readln: the library function is modelled by its promise.
- HttpRequest.HttpRequestParse: a request line of fewer than three words and a header without a colon
  dereference a null pointer, and the model says that they do; nothing is said about the state afterwards.
  Memory that the source leaves unset (src/http.c:295 and the minor number of other versions) is not modelled.
- Responses, the rest of the event-loop code and `isxdigit` of bytes above 127 are left out.

Other parts

- ConfigFile.WriteAndRead: the delimiter `=` and the comment mark `#`, trimmed keys without newline, `=`
  and `#`, trimmed values without `=` and `#` whose continuation lines are not blank. The reader itself is modelled for any delimiter and mark.
- ConfigFile.CommentsIgnored: the comment mark `#` and the delimiter `=`, as main sets them.
- QueryFilter.RangeFilterBack: bounds of which the adjusted ones fit an int; the others by `QueryFilter.RangeFilterExact`.
  Adding one to the largest int wraps.
- QueryFilter.ReadFilter: the bounds of a float range stay text, and their comparison, which needs atof
  and float rounding, is a parameter.
- Field weights, where the source counts commas and never advances, grouping, and the other query
  parameters are left out.
- Brackets.GetTextInside: the position where the start pattern matches is a parameter. The regular
  expressions of the lint tool and `CloseExpression`, which looks for `)` whatever bracket it began with, are left out.
- BatchAllocator.Allocator.ReleaseBlock: the caller releases a live block once. Alignment and the
  destructor are left out; batches are known by the order of their allocation.
