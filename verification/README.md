# Mood NFT off-chain mirror — a Dafny model

The Mood NFT project keeps an off-chain copy of every mood NFT in a
document store. An Express API owns the copy: it mints a record, updates a
record's mood and message, and serves projections of it (the record, its
change history, a paged list, an owner filter and ERC-721 metadata). Three
React hooks watch the contract's `NFTMinted`, `MoodChanged` and
`MessageUpdated` events and turn each log into a request to that API. The
image service names the moods and splices a message and a mood label into
the SVG image.

This project models that core as pure functions over immutable data:

- `Wrappers`: the `Option` and `Result` types.
- `Text`: the JavaScript string operations the core relies on.
  - ASCII `toLowerCase`; `trim` over ECMAScript's whitespace set;
  - `parseInt` and number-to-decimal conversion;
  - `indexOf`;
  - `String.prototype.replace` with a string pattern, including its
    `$`-pattern expansion of the replacement.
- `NftMetadata`: the stored record, the store (a map from token id to
  record) and the schema's rules.
- `RecordOrder`: the descending sort the list and owner queries ask the
  database for.
- `NftRoutes`: the mint and update handlers as store operations, returning
  the new store and a result or an API error, plus the read projections.
- `ImageGenerator`: the mood table, `getMoodName`, the configuration
  fallback, `addMessageText` and `addMoodLabel`.
- `SyncHooks`: each contract event becomes a request body; a batch of logs
  becomes the requests one hook issues.
- `SyncPipeline`: the hooks composed with the handlers. A sequence of
  delivered events is replayed against the store.

Timestamps are abstract natural numbers handed in with each request. An
absent JSON field is `None`. A JavaScript falsy string is `None` or `""`.

## Model

| member | source | states |
|---|---|---|
| NftMetadata.TokenIdUnique | NFT/models/NFTMetadata.js:5-10 | Two records filed in a store under different keys have different token ids. |
| NftMetadata.Valid | NFT/models/NFTMetadata.js:3-58 | A store is valid when every record is filed under its own token id, has a lower-case owner, a mood in 0..11, a message of at most 200 characters and a non-empty history of valid entries. |
| NftRoutes.Mint | NFT/routes/nftRoutes.js:73-113 | MissingFields exactly when the token id is absent or the owner falsy, so token id 0 is accepted. AlreadyExists exactly when both are present and the token id is already stored. Every failure leaves the store unchanged. Mint succeeds exactly when both fields are present, the token is new, the (defaulted) mood is in 0..11 and the message has at most 200 characters. The new record has the owner lower-cased, mood defaulting to 0 and message to "". Its history is the single initial (mood, message) entry. createdAt and lastUpdated are the request time. |
| NftRoutes.Update | NFT/routes/nftRoutes.js:120-177 | Each error holds exactly when its check is the first to fail, in the source's order: MissingFields; then InvalidTokenId for a path parseInt cannot read (the database cannot cast it, so the handler answers 500) or NotFound for a numeric path naming no record; Unauthorized (owner compared lower-cased); NoChanges (mood and message both equal to the stored ones). Success holds exactly when all pass and the new mood is in 0..11 and the message has at most 200 characters. Every failure leaves the store unchanged. On success only this token's record changes. One entry is appended: the pre-update (mood, message) at the request time. Then mood is set and message is set, an absent message becoming "". lastUpdated becomes the request time. tokenId, owner and createdAt are kept. |
| NftRoutes.StatusCode | NFT/routes/nftRoutes.js:120-177 | 400 exactly for MissingFields, AlreadyExists and NoChanges; 403 exactly for Unauthorized; 404 exactly for NotFound; 500 exactly for a schema validation failure, a query error and a path the database cannot cast. |
| NftRoutes.MissError | NFT/routes/nftRoutes.js:186-204 | When no record is found for a path: InvalidTokenId (the 500 of the catch block) exactly when parseInt cannot read the path, NotFound (404) exactly when it can. |
| NftRoutes.Lookup | NFT/routes/nftRoutes.js:133 | A path finds a record exactly when parseInt of it yields a stored key, and then it finds that key's record. |
| NftRoutes.MintPreservesValid | NFT/models/NFTMetadata.js:3-58 | Minting keeps every schema rule on every stored record: unique token id, lower-case owner, mood in 0..11, message at most 200 characters, non-empty history of valid states. Existing records are never removed. |
| NftRoutes.UpdatePreservesValid | NFT/models/NFTMetadata.js:3-58 | Updating keeps every schema rule. Each record's history only grows by appending. |
| NftRoutes.MintTwiceRejected | NFT/routes/nftRoutes.js:83-86 | After a successful mint, a second mint of the same token id is rejected with AlreadyExists. The first record is left as it was. |
| NftRoutes.MintKeepsChronology | NFT/models/NFTMetadata.js:47-57 | When no stored time is later than the request time, minting keeps every record chronological: the first history entry is stamped createdAt, the last lastUpdated, and the stamps never decrease. |
| NftRoutes.UpdateKeepsChronology | NFT/routes/nftRoutes.js:153-163 | An update keeps every record chronological in the same sense: its appended entry and lastUpdated carry the request time. |
| NftRoutes.GetNft | NFT/routes/nftRoutes.js:183-205 | Fails exactly when the path names no stored record, with InvalidTokenId or NotFound as the path decides. Otherwise the view carries that record, and its moodName is the name of the record's mood. |
| NftRoutes.GetHistory | NFT/routes/nftRoutes.js:276-301 | Fails exactly when the path names no record, with the same two errors as GetNft. Otherwise the items are the history entries in order, each with its mood's name. currentMood is the name of the stored record's mood. totalChanges is the history length. |
| NftRoutes.ShownMessage | NFT/routes/nftRoutes.js:44 | The shown message is never empty. A non-empty message is shown as it is. |
| NftRoutes.Metadata | NFT/routes/nftRoutes.js:11-67 | Fails exactly when the path names no record, with the same two errors as GetNft. Otherwise there are four attributes. The Mood attribute is the mood's name. The Message attribute is never empty and is the message when there is one. Total Changes is the history length, the same number the history route reports as totalChanges. |
| NftRoutes.NumberOr | NFT/routes/nftRoutes.js:213-214 | A query that is absent, is not numeric or parses to 0 gives the default. Any other parsed value is used as it is. |
| NftRoutes.ListedRecords | NFT/routes/nftRoutes.js:216-219 | The page has exactly min(abs(limit), stored count minus skip) records. Its i-th record is record skip+i of the whole collection sorted by lastUpdated, newest first. So every record on it is stored and the page is in that order. |
| NftRoutes.ByNewest | NFT/routes/nftRoutes.js:216 | The sorted collection is a permutation of the stored records: each record appears as many times as there are keys holding it, and nothing else appears. It is in descending order of lastUpdated. |
| NftRoutes.ListedRecordsNewestFirst | NFT/routes/nftRoutes.js:216-219 | A stored record left off the first page was updated no later than any record on it. |
| NftRoutes.Window | NFT/routes/nftRoutes.js:218-219 | Skipping then limiting a list gives min(limit, length minus skip) elements, and element i of the page is element skip+i of the list. A descending list gives a descending page. |
| NftRoutes.ListNfts | NFT/routes/nftRoutes.js:211-242 | limit defaults to 50 and skip to 0. A negative skip is a query error. Otherwise count is the page size and total is the number of stored records. Each summary carries its record's fields and mood name. |
| NftRoutes.OwnedRecords | NFT/routes/nftRoutes.js:252-254 | The result holds each record of that owner as many times as there are keys holding it, and no record of another owner. Each stored record of the owner is included. The result is sorted by createdAt, newest first. |
| NftRoutes.FilterOwner | NFT/routes/nftRoutes.js:252 | A record survives the filter exactly when the input holds it and its owner is the one asked for. |
| NftRoutes.FilterOwnerCounts | NFT/routes/nftRoutes.js:252 | The filter keeps each record of the owner as often as the input holds it, and drops every other record. |
| NftRoutes.NftsByOwner | NFT/routes/nftRoutes.js:248-270 | owner echoes the address as given. count is the number of records listed. The records are the owner query on the lower-cased address, each with its mood name. |
| NftRoutes.NftsByOwnerListsOwned | NFT/routes/nftRoutes.js:252-264 | The by-owner route lists a record exactly when it is stored with the lower-cased address as owner. Every such record is listed, newest creation first. In a valid store each of them is listed exactly once. |
| NftRoutes.ByOwnerMatchesAuthorization | NFT/routes/nftRoutes.js:140 | In a valid store, a record appears under an address on the by-owner route exactly when that address passes the update handler's ownership check. |
| RecordOrder.Sort | NFT/routes/nftRoutes.js:216-217 | The sorted list is in descending order of the chosen time field and is a permutation of its input. |
| RecordOrder.Insert | NFT/routes/nftRoutes.js:254 | Inserting into a descending list keeps it descending. It adds exactly that one record. |
| RecordOrder.RecordList | NFT/routes/nftRoutes.js:216 | The records of the store, each as many times as there are keys holding it. |
| RecordOrder.FiledOnce | NFT/models/NFTMetadata.js:5-10 | In a valid store a record is held by exactly one key, its own token id. |
| RecordOrder.OffPrefixNoNewer | NFT/routes/nftRoutes.js:216-219 | In a descending list, a record that is not among the first n is no newer than any of them. |
| ImageGenerator.MoodName | NFT/services/imageGenerator.js:250-252 | The configured name for an index in 0..11, otherwise "Unknown". |
| ImageGenerator.MoodNameUnknownIff | NFT/services/imageGenerator.js:250-252 | The name is "Unknown" exactly for indices outside 0..11. |
| ImageGenerator.MoodNamesDistinct | NFT/services/imageGenerator.js:19-128 | The twelve configured mood names are pairwise different. |
| ImageGenerator.ConfigOf | NFT/services/imageGenerator.js:19-128 | A configuration exists exactly for indices 0..11. |
| ImageGenerator.ConfigFor | NFT/services/imageGenerator.js:134 | The configuration used is always one of the table's. For a configured index it is that mood's. Otherwise it is mood 0's. |
| ImageGenerator.DisplayMessage | NFT/services/imageGenerator.js:224 | The displayed text is a prefix of the message of at most 50 characters. It is the whole message when that fits, and exactly 50 characters otherwise. |
| ImageGenerator.AddMessageText | NFT/services/imageGenerator.js:219-232 | An empty or whitespace-only message, or a document without "</svg>", leaves the document unchanged. |
| ImageGenerator.AddMessageTextKeepsDocument | NFT/services/imageGenerator.js:231 | For a non-blank message, the text before the first "</svg>" is kept, and so is the text from it onward. Only something between them is added. |
| ImageGenerator.AddMessageTextLiteral | NFT/services/imageGenerator.js:219-232 | The same guards. Otherwise the message element for the first 50 characters is inserted verbatim just before the first "</svg>". |
| ImageGenerator.AddMessageTextAgrees | NFT/services/imageGenerator.js:231 | When neither the displayed message nor the colour contains "$", the as-written step and the literal insertion give the same document. |
| ImageGenerator.DollarAmpersandMessage | NFT/services/imageGenerator.js:231 | For the message "$&", the as-written step puts "</svg>" where the message belongs. So it differs from the literal insertion. |
| ImageGenerator.AddMoodLabel | NFT/services/imageGenerator.js:237-245 | Without "</svg>" the document is unchanged. Otherwise the label element is inserted just before the first "</svg>", whatever the message step did. |
| ImageGenerator.DecorateSvg | NFT/services/imageGenerator.js:133-154 | The as-written message step followed by the label step, as generateMoodSVG calls them. The label of the configuration in use, with the fallback, always ends up in a document that has a closing tag, whatever the message. Without a closing tag the document is unchanged. |
| ImageGenerator.DecorateSvgCorrected | NFT/services/imageGenerator.js:133-154 | The same guarantee for the two steps with the message inserted literally. |
| ImageGenerator.AsWrittenStepKeepsClose | NFT/services/imageGenerator.js:231 | Whatever the message expands to, the as-written message step keeps a closing tag in a document that had one, and changes nothing in one that had none. |
| ImageGenerator.DollarAmpersandLabel | NFT/services/imageGenerator.js:148-151 | With the message "$&", the document gets a closing tag inside the message's text element. The mood label is then spliced in at a point strictly after the first original closing tag's position and no later than the end of the message element's opening part. That is inside the message's text element, ahead of its early closing tag. |
| Text.ReplaceIsInsert | NFT/services/imageGenerator.js:244 | With no "$" in the inserted text or pattern, replacing the first "</svg>" by text + "</svg>" is insertion before the first occurrence. |
| Text.ReplaceFirst | NFT/services/imageGenerator.js:231 | Without an occurrence the string is unchanged. Otherwise the text before the first occurrence and the text after it are kept in place. With a replacement free of "$", the occurrence is replaced by the replacement itself. |
| Text.ExpandReplacement | NFT/services/imageGenerator.js:231 | A replacement with no "$" is used as it is. One that does not start with a "$" pattern keeps its first character. |
| Text.ExpandMatchToken | NFT/services/imageGenerator.js:231 | "$&" between two "$"-free texts stands for the matched text. |
| Text.ParseInt | NFT/routes/nftRoutes.js:133 | parseInt fails exactly when no digit follows the optional sign. A "-" sign gives a value of at most 0 and otherwise the value is at least 0. A string of digits gives its decimal value. |
| Text.ParseDecimal | hooks/use-mood-sync.ts:34 | parseInt of the decimal rendering of a token id gives that token id back. The path the hooks build reaches the route's lookup intact. |
| Text.TrimEmptyIffBlank | NFT/services/imageGenerator.js:220 | A string trims to "" exactly when all of it is JavaScript whitespace. |
| Text.ToLower | NFT/routes/nftRoutes.js:91 | Same length as the input. A–Z are mapped to a–z (code point plus 32) and every other character is kept. The result has no upper-case letter. |
| Text.Trim | NFT/services/imageGenerator.js:220 | The result is the input with a blank run removed from each end: a stretch of the input whose text before and after is all whitespace. Unless empty, it neither starts nor ends with a character of ECMAScript's whitespace and line-terminator set. It is empty exactly when the whole input is whitespace. |
| Text.Decimal | hooks/use-mood-sync.ts:34 | The decimal rendering of a token id is a non-empty run of digits with no leading zero, except for 0 itself. |
| Text.BetweenBlanks | NFT/services/imageGenerator.js:220 | Cutting a blank run off the front of a string and then a blank run off the back leaves a stretch of it with whitespace on both sides. Nothing is left exactly when the whole string was whitespace. This is the stretch `trim` returns. |
| Text.ToLowerIdempotent | NFT/routes/nftRoutes.js:91 | Lower-casing an already lower-cased owner changes nothing. |
| SyncHooks.MintBodyOf | hooks/use-mint-sync.ts:34-39 | The create body carries the event's token id and mood, the event's owner lower-cased (so lower-case and of the same length), and message "". |
| SyncHooks.MoodRequestOf | hooks/use-mood-sync.ts:38-45 | The request's path parses to the event's token id. It carries the new mood, no message field, and the event's owner lower-cased as userAddress. |
| SyncHooks.MessageRequestOf | hooks/use-message-sync.ts:38-49 | The request's path parses to the token id. It carries the read-back mood, the new message and the event's owner lower-cased as userAddress. |
| SyncHooks.MintSync | hooks/use-mint-sync.ts:22 | Without a client or a connected address, nothing is sent. Otherwise there is exactly one create body per log, in log order. |
| SyncHooks.MoodSync | hooks/use-mood-sync.ts:22 | Without a client or address, nothing is sent. Otherwise there is exactly one update per log, in log order. |
| SyncHooks.MessageStep | hooks/use-message-sync.ts:82-94 | A log yields one request carrying the read-back mood when the read succeeds. It yields none when the read fails. |
| SyncHooks.MessageSync | hooks/use-message-sync.ts:70-95 | Without a client or address, nothing is sent. Otherwise the loop that handles logs one at a time issues exactly the requests of the sequential definition. |
| SyncHooks.MessageRequestsCount | hooks/use-message-sync.ts:83-94 | The number of requests equals the number of successful read-backs. |
| SyncHooks.ReadFailureDropsLog | hooks/use-message-sync.ts:92-94 | Dropping a log whose read-back failed changes nothing in the requests sent. |
| SyncHooks.MessageRequestsFromLogs | hooks/use-message-sync.ts:83-91 | Every request sent is built from some log whose read-back succeeded, with that read-back's mood. |
| SyncHooks.MessageRequestsAppend | hooks/use-message-sync.ts:71-95 | Handling two batches of logs one after the other sends the requests of the first batch followed by those of the second. |
| SyncPipeline.Handle | hooks/use-message-sync.ts:82-94 | Only a failed read-back sends nothing. Mint events create and the other events change. A failed request, or one not sent, leaves the store unchanged. No stored token id is ever removed. |
| SyncPipeline.Replay | NFT/routes/nftRoutes.js:73-177 | Replaying deliveries never removes a stored token id, since no route deletes a record. |
| SyncPipeline.ReplaySnoc | NFT/routes/nftRoutes.js:73-177 | Replaying one more delivery handles it in the store the earlier ones left. |
| SyncPipeline.MintEventCreates | hooks/use-mint-sync.ts:34-39 | A mint event is rejected for missing fields exactly when the owner is "". It is rejected as a duplicate for an existing token. It succeeds exactly for a new token with mood at most 11. The stored record is then the event's, with the owner lower-cased and message "". |
| SyncPipeline.MoodEventNeverNoChange | NFT/routes/nftRoutes.js:147 | A mood event is never rejected as "No changes detected", because the absent message never equals the stored one. |
| SyncPipeline.MoodEventClearsMessage | hooks/use-mood-sync.ts:40-44 | A mood event succeeds exactly when the token exists, the owner matches and the mood is in range. The stored message then becomes "", and the previous (mood, message) is appended. |
| SyncPipeline.MoodRedeliveryAppendsTwice | NFT/routes/nftRoutes.js:146-158 | Delivering the same mood event twice succeeds twice. The history grows by two entries. |
| SyncPipeline.MessageEventSetsBoth | hooks/use-message-sync.ts:45-49 | A message event with a read-back mood succeeds exactly when the token exists, the owner matches, the state differs and the values are valid. The record then holds the read-back mood and the new message. |
| SyncPipeline.MessageRedeliveryRejected | NFT/routes/nftRoutes.js:146-151 | Re-delivering a message event that succeeded is rejected with NoChanges, and the store is unchanged. |
| SyncPipeline.FailedReadBackChangesNothing | hooks/use-message-sync.ts:92-94 | A message event whose read-back failed sends nothing and leaves the store as it was. |
| SyncPipeline.ForeignOwnerChangesNothing | NFT/routes/nftRoutes.js:140-144 | A mood or message event whose owner differs from the stored owner, case-insensitively, is rejected as Unauthorized. The store is unchanged. |
| SyncPipeline.UpdateRefusesForeign | NFT/routes/nftRoutes.js:140-144 | An update with both required fields, for a stored record whose owner is not the caller, is answered Unauthorized and leaves the store as it was. |
| SyncPipeline.HandlePreservesValid | NFT/models/NFTMetadata.js:3-58 | Handling any event keeps every schema rule. It never removes a record or rewrites history. |
| SyncPipeline.ReplayPreservesValid | NFT/models/NFTMetadata.js:3-58 | Replaying any sequence of events keeps every schema rule. Histories only grow by appending. |
| SyncPipeline.HistoryCounts | NFT/routes/nftRoutes.js:89-163 | Over any replay, a token present at the start is never created. A new token is created at most once, and is present at the end exactly when it was. Its history length is its starting length (1 for a created token) plus the number of successful updates of it. |
| SyncPipeline.ReplayKeepsChronology | NFT/models/NFTMetadata.js:37-57 | Under a non-decreasing clock, replaying any events keeps every record chronological: first entry at createdAt, last at lastUpdated, stamps non-decreasing. |
| SyncPipeline.MintThenMoodChange | hooks/use-mood-sync.ts:38-45 | A mint of token 7 with mood 0, followed by a mood change to 5, leaves mood 5, message "", owner "0xaa" and history [(0, "", t0), (0, "", t1)]. |
| SyncPipeline.MintThenMessage | hooks/use-message-sync.ts:83-91 | A mint of token 3 with mood 2, followed by the message "hi" with read-back mood 2, leaves mood 2, message "hi" and history [(2, "", t0), (2, "", t1)]. |

## Left out

- Network and process I/O are parameters or absent: `fetch`, the Express server and CORS, the Mongo connection, console logging and HTTP response bodies. Handlers return the new store and a result; a route's status code is `NftRoutes.StatusCode`.
- Concurrency: the non-atomic `findOne`/`save` pair and the hooks' fire-and-forget requests. Events are delivered one at a time, in order, and each request completes before the next.
- Watcher setup and teardown, and `hooks/use-blockchain-sync.ts`, which only calls the three hooks. A session is modelled as "has a client" plus "has an address".
- Retries, a dead-letter queue and a processed-block watermark do not exist in the code. A failed request is only logged, and the model has no retry either.
- Clock readings: each request receives one `now`. The source reads the clock separately for the history entry and for `lastUpdated`, so the two values may differ by milliseconds.
- The styling steps of `generateMoodSVG` (`applyMoodFilters`, `replaceMoodColors`, `addTransformation`): they run regexes over a template read from disk and do floating-point arithmetic. `DecorateSvg` starts from their output. The Base64 encoding of the image in the metadata route is left out as well.
- The metadata `image` field and the `toISOString` rendering of dates. Dates stay abstract numbers.
- NftRoutes.Metadata: the ensures do not state `name`, `description`, the "Last Updated" attribute or `externalUrl`. `MetadataOf` sets them as the route does.
- `Number(tokenId)` on a bigint above 2^53 loses precision in JavaScript. Token ids are exact naturals here.
- JSON values other than absent strings and integers: `null`, numbers sent as strings, fractional moods. parseInt's leading whitespace, `0x` prefix and radix handling are also left out.
- Case mapping and lengths beyond ASCII: `toLowerCase` maps A–Z only. `substring` and `maxlength` count characters, not UTF-16 code units.
- Mongoose's `_id`, `__v` and `toObject` extras. The store is a map keyed by token id. Of Mongoose's casting only the failure on a path that parseInt cannot read is modelled, as `InvalidTokenId`.
- `NftRoutes.ListedRecords`: the page is a window over one particular sort of the collection: an insertion sort of the stored records listed in an unspecified but fixed order. Among records with equal `lastUpdated` the database may pick another order, so which of them fill a page is not promised by the source.
- `NftRoutes.OwnedRecords`: the order among records with equal `createdAt` is likewise one choice among those the database may make.
- `ImageGenerator.AddMessageText`: states only the guards and that the document around the first "</svg>" is kept. The inserted text depends on `$`-pattern expansion, which `ImageGenerator.DollarAmpersandMessage` and `ImageGenerator.AddMessageTextAgrees` pin down.
- `ImageGenerator.AddMoodLabel`: requires the mood name and colour to contain no "$"; every name and colour in the table satisfies this, and the source only passes those.
- UI and glue: `app/*`, `components/*`, `hooks/use-nft-ownership.ts`, `scripts/sync-existing-nft.js`, and the static tables `lib/contract.ts` and `lib/mood-styles.ts` are not part of this model.
- Behaviour of the code worth noting:
  - mood events are not idempotent (each re-delivery appends to history and clears the message);
  - a re-delivered message event is rejected as NoChanges;
  - the owner of a record never changes.

## Findings

| source | as written | input that shows it | evidently intended | confidence | as-written member | corrected member |
|---|---|---|---|---|---|---|
| NFT/services/imageGenerator.js:231 | `svg.replace('</svg>', textElement + '</svg>')` passes the user's message through replacement-pattern expansion | message `$&` on any document with `</svg>`: the message's `<text>` element receives a closing `</svg>` tag instead of the message, so the document closes early, and the mood label that generateMoodSVG adds next is spliced inside that `<text>` element | the message text is inserted literally before the first `</svg>` | not executed | ImageGenerator.DollarAmpersandMessage, ImageGenerator.DollarAmpersandLabel, ImageGenerator.DecorateSvg | ImageGenerator.AddMessageTextLiteral, ImageGenerator.DecorateSvgCorrected |
