# Discord message archive: a Dafny model of the server core

The archive is a small Flask backend. An external bot pushes Discord
channels and messages to it, it stores them in two tables (`channels`,
`messages`), and it serves them back paginated and searchable. It also
accepts media uploads and files them under `images/` or `audio/`. This
project models the route handlers of `src/routes/discord.py` over the record
shapes of `src/models/message.py`, with the database replaced by two
in-memory sequences in insertion order.

Modules (one file each):

- `Wrappers` (`wrappers.dfy`): `Option`.
- `Text` (`text.dfy`): the string operations the routes use. These are
  `.lower()` on ASCII, `str.replace`, substring containment and
  `rsplit('.', 1)`.
- `Models` (`models.dfy`): the `Message` and `Channel` rows and their
  `to_dict` projections.
  - A nullable column is an `Option`.
  - A NOT NULL column is a plain value, so "required and non-null" holds by
    type. This covers `discord_message_id`, `user_id`, `username`,
    `timestamp`, `channel_id`, `channel_name`, `server_id` and `server_name`,
    and for channels `discord_channel_id`, `name`, `server_id` and
    `server_name`.
  - `avatar_url`, `content`, `message_type`, the media columns, `is_bot` and
    `created_at` are nullable.
- `Codec` (`codec.dfy`): reading a serialised row back. This is the inverse
  of each `to_dict` projection, and proves that the projection loses
  nothing.
- `Sorting` (`sorting.dfy`): ascending order by an integer key, proved to be
  sorted and a permutation.
- `Pagination` (`pagination.dfy`): Flask-SQLAlchemy 3.x's `paginate(...,
  error_out=False)` written out as a definition (in 2.x only a negative
  size falls back to 20, and a size of 0 gives an empty page with
  `pages` = 0):
  - page = `max(page, 1)`;
  - page size = the requested size, or 20 when it is below 1;
  - items = LIMIT/OFFSET slice;
  - `pages` = ceiling of total / page size;
  - `has_next` = page < pages, `has_prev` = page > 1.
- `Queries` (`queries.dfy`): `get_messages`, `get_channels`, `get_servers`,
  `get_server_channels` and `get_stats`, as functions of the tables.
- `Ingest` (`ingest.dfy`): `create_channel` and `create_message`.
  - Each is a function from the old table and the JSON body to the new table
    and the reply.
  - The class `Archive` holds the two tables. Its methods `CreateChannel` and
    `CreateMessage` update them through these functions and keep the table
    invariant: unique external IDs, and primary keys 1, 2, 3, … in insertion
    order.
- `Upload` (`upload.dfy`): `allowed_file`, the decision made by
  `upload_file`, and a `MediaStore` class whose file map the upload updates.

## Modelling choices

- **Time.** Timestamps are an abstract totally ordered type (`int`).
  - `datetime.utcnow()` is a value `now` passed in.
  - `datetime.fromisoformat` is a partial function parameter
    `parseIso: string -> Option<Instant>`.
  - `isoformat()` is a function parameter `iso`.
- **Filenames.** `werkzeug.secure_filename` is a function parameter
  `sanitize` about which nothing is assumed.
- **The JSON body.** Each key of a request body is a `Field`: `Missing`,
  `Null` or `Present(v)`.
  - `data['k']` on a missing key raises KeyError. The route does not catch
    it, so the reply is `Failed(MissingKey(k))` (status 500) and nothing is
    stored.
  - A JSON null in a NOT NULL column fails at commit: `Failed(NotNullViolation)`.
  - The external-ID lookup comes first. So a request whose ID is already
    stored gets the stored row and 200 even when its other keys are missing.
- **Column defaults.** SQLAlchemy's ORM leaves an attribute that is `None` out
  of the INSERT, so the column default applies to it. An explicit null for
  `message_type` therefore stores `'text'`, and an explicit null for `is_bot`
  stores `false`. A null `content` stores NULL, because that column has no
  default.
- **Timestamps.**
  - A string has every `Z` replaced by `+00:00` and is then parsed; parse
    failure gives `now`.
  - An absent or falsy value gives `now`.
  - A truthy non-string value is passed on unchanged. The model takes it to
    be an instant already (`TimestampInput.Given`).
- **Row identity.** Integer primary keys are assigned as `|rows| + 1`. That is
  SQLite's rowid choice for a table that is only ever appended to.
- **Query order.** `ORDER BY timestamp ASC` leaves the order of equal
  timestamps to the database. The model fixes one such order: it keeps
  insertion order among equal timestamps.
- **Distinct servers.** `DISTINCT` leaves the order of the listed servers to
  the database. The model keeps them in order of first appearance.
- **Extension check.** Only ASCII letters are lower-cased. For the allow-list
  this is exact: among the letters that Python lower-cases to ASCII, only the
  Kelvin sign (to `k`) and `İ` (to two characters) do so, and neither can
  produce an allowed extension.
- **Upload routing.** The route recomputes the extension from the
  *sanitised* name. When sanitising removes the only dot (`.png` becomes
  `png`), `rsplit('.', 1)[1]` raises IndexError and the request fails with a
  server error. The model keeps this as the outcome
  `NoExtensionAfterSanitizing`, and `DotOnlyNameFailsAfterSanitizing`
  exhibits it.
- **Message type and page arguments are not checked.** The comment on the
  `message_type` column (src/models/message.py:18) lists `text`, `image`,
  `audio` and `embed`, but `create_message` stores any string it is sent.
  The model keeps any string (`MessageCreatedFromRequest`). `get_messages`
  accepts any integer for `page` and `limit`; the model applies the
  library's clamping to both, and `current_page` echoes the requested page,
  not the clamped one.

## Model

| member | source | states |
|---|---|---|
| Text.Lower | src/routes/discord.py:13 | lower-casing keeps the length, maps each character by itself, and leaves no upper-case ASCII letter |
| Text.LowerIdempotent | src/routes/discord.py:13 | lower-casing twice is lower-casing once |
| Text.ReplaceAllRemoves | src/routes/discord.py:80 | after replacing every `c` by a replacement without `c`, no `c` is left |
| Text.ReplaceAllIdentity | src/routes/discord.py:80 | a string without `c` is unchanged by the replacement |
| Text.ReplaceAllFrom | src/routes/discord.py:80 | every character of the result comes from the input or from the replacement |
| Text.ReplaceAllLength | src/routes/discord.py:80 | each occurrence of `c` becomes `\|rep\|` characters and every other character stays one |
| Text.ReplaceAllAppend | src/routes/discord.py:80 | replacing distributes over concatenation |
| Text.ContainsIffOccurrence | src/routes/discord.py:51 | the substring test holds exactly when the search string is a prefix of some suffix of the content |
| Text.LastIndexOf | src/routes/discord.py:13 | gives no index exactly when the character is absent; otherwise gives an occurrence with no later one |
| Models.MessageDictKeys | src/models/message.py:27-45 | the serialised message has exactly the 16 column keys, id through created_at |
| Models.ChannelDictKeys | src/models/message.py:60-68 | the serialised channel has exactly the keys id, discord_channel_id, name, server_id, server_name, created_at |
| Codec.MessageDictAuthor | src/models/message.py:29-32 | id, discord_message_id, user_id and username are written under their own keys |
| Codec.MessageDictBody | src/models/message.py:33-35 | avatar_url, content and message_type are written as string or null, timestamp as its ISO string |
| Codec.MessageDictPlace | src/models/message.py:36-39 | channel_id, channel_name, server_id and server_name are written under their own keys |
| Codec.MessageDictMedia | src/models/message.py:41-44 | media_url, media_filename and is_bot are written as value or null, created_at as ISO string or null |
| Codec.DecodeHeldMessage | src/models/message.py:27-45 | any dict holding a message's columns under the 16 keys decodes to that message |
| Codec.MessageDictRoundTrip | src/models/message.py:27-45 | decoding the serialised message recovers the row, with `timestamp`/`created_at` as ISO strings or null |
| Codec.ChannelDictRoundTrip | src/models/message.py:60-68 | decoding the serialised channel recovers the row, `created_at` rendered or null |
| Sorting.InsertByPermutes | src/routes/discord.py:53 | inserting adds exactly the inserted row |
| Sorting.InsertByAtLeast | src/routes/discord.py:53 | a lower bound of the rows and of the inserted row bounds the result |
| Sorting.InsertBySorted | src/routes/discord.py:53 | inserting into a sorted sequence keeps it sorted |
| Sorting.SortBySortsAndPermutes | src/routes/discord.py:53 | the result is in ascending key order and is a permutation of the input |
| Pagination.PageCount | src/routes/discord.py:53-55 | the page count is the least `n` with `n * perPage >= total` (the ceiling) |
| Pagination.Paginate | src/routes/discord.py:53-55 | page and size are clamped to at least 1 (size default 20); item `k` is row `(page-1)*perPage + k`; the page holds `min(perPage, total - offset)` rows, none past the end; total counts all rows; has_prev iff page > 1 |
| Pagination.PageRowsFromSource | src/routes/discord.py:53-55 | a page holds only rows of its source |
| Pagination.PageOfSorted | src/routes/discord.py:53-55 | a page of a sorted sequence is sorted |
| Pagination.PageIsSlice | src/routes/discord.py:53-55 | page k is the slice from row `(k-1) * perPage` to row `k * perPage`, cut at the end |
| Pagination.HasNextIff | src/routes/discord.py:53-63 | has_next holds exactly when `page * perPage < total` |
| Pagination.NonEmptyIff | src/routes/discord.py:53-55 | a page is non-empty exactly when its number is at most the page count, so a page out of range is empty and not an error |
| Pagination.PaginateEffective | src/routes/discord.py:53-55 | paginating with the adjusted page size gives the same page as paginating with the requested size |
| Pagination.FirstPagesPrefix | src/routes/discord.py:53-55 | pages 1..k read in turn are the first `k * perPage` rows |
| Pagination.InFirstPages | src/routes/discord.py:53-55 | a row among pages 1..k is on one of them |
| Pagination.PagesCoverAll | src/routes/discord.py:53-55 | pages 1..pages read in turn are the whole ordered result |
| Pagination.ServedOnSomePage | src/routes/discord.py:53-55 | every row is on some page within the page count |
| Pagination.TwentyFiveRowsTenPerPage | src/routes/discord.py:53-64 | 25 rows, 10 per page: page 1 has 10 rows, pages = 3, has_next, not has_prev; page 3 has 5 rows, not has_next, has_prev; page 4 is empty |
| Queries.Filter | src/routes/discord.py:48-51 | each row is kept with its multiplicity exactly when it satisfies the condition, and nothing else is kept |
| Queries.SortByTime | src/routes/discord.py:53 | messages are in non-decreasing timestamp order and are a permutation of the input |
| Queries.GetMessages | src/routes/discord.py:41-64 | every returned message is stored and has the requested channel; with a non-empty search every returned content contains it; items are timestamp-ordered; at most `limit` items (default 50); total = number of matches over all pages; current_page echoes the requested page (default 1); has_prev iff that page > 1 |
| Queries.GetMessagesServesPage | src/routes/discord.py:53-63 | messages, total, pages, has_next and has_prev are those of the requested page of the channel's matches in timestamp order |
| Queries.GetMessagesPageFlags | src/routes/discord.py:53-63 | has_next iff `page * limit < total`; the item list is empty exactly when the page is past the page count |
| Queries.SortedRowsAreMatches | src/routes/discord.py:48-53 | ordering keeps the matches: same number, each of the channel and passing the search |
| Queries.EveryMatchIsServed | src/routes/discord.py:48-60 | every stored message of the channel that passes the search is on some page within `pages` |
| Queries.ListChannelsRoundTrip | src/routes/discord.py:15-19 | one entry per channel row, in store order, and each entry decodes back to its row when the timestamp format round-trips |
| Queries.Distinct | src/routes/discord.py:148 | the same elements, each once |
| Queries.GetServers | src/routes/discord.py:145-152 | a (server_id, server_name) pair is listed exactly when some channel row carries it, and no pair is listed twice |
| Queries.GetServerChannels | src/routes/discord.py:154-158 | exactly the channel rows whose server_id is the requested one, each with its multiplicity |
| Queries.ImageCard | src/routes/discord.py:165 | counting distinct values: an image is no larger than its set, and as large under an injective map |
| Queries.DistinctCard | src/routes/discord.py:148 | a sequence without repetitions has as many distinct entries as entries |
| Queries.ElementsCard | src/routes/discord.py:164-165 | a sequence has at most as many distinct entries as entries |
| Queries.ServerIdsAsImages | src/routes/discord.py:145-165 | the distinct server IDs are the server IDs of the listed servers and of the channel rows |
| Queries.GetStats | src/routes/discord.py:160-171 | total_messages and total_channels are the row counts; total_servers is the number of distinct server_id among channel rows only, at most the length of the server list and at most the channel count |
| Queries.ServerIdsAtMostServers | src/routes/discord.py:145-165 | the server list is at least as long as total_servers |
| Queries.ServerIdsAtMostChannels | src/routes/discord.py:163-165 | total_servers never exceeds total_channels |
| Queries.ServersMatchTotalWhenNamesAgree | src/routes/discord.py:145-171 | when each server_id has one server_name, the server list has exactly total_servers entries |
| Ingest.FirstMissing | src/routes/discord.py:86-96 | gives no key exactly when no field is absent; otherwise an absent field's key |
| Ingest.CheckRequired | src/routes/discord.py:86-96 | no error exactly when every required field has a value; any absent key gives a KeyError naming an absent key, before any null is considered |
| Ingest.FindFirst | src/routes/discord.py:27 | the first row with the external ID, or none exactly when no row has it |
| Ingest.InsertChannel | src/routes/discord.py:31-39 | a row is created exactly when all four fields have values; it gets primary key `\|rows\|+1` and created_at = now |
| Ingest.IngestChannel | src/routes/discord.py:21-39 | the table only grows, by exactly the created row, and is unchanged on any other reply |
| Ingest.ChannelReplayReturnsStored | src/routes/discord.py:26-29 | a stored external ID gets that row back with 200 and an unchanged table, whatever the other fields |
| Ingest.ChannelCreatedFromRequest | src/routes/discord.py:31-39 | a new external ID with all four fields appends exactly one row carrying them and answers 201 |
| Ingest.IngestChannelKeepsTable | src/models/message.py:50-51 | at most one channel per external ID, and primary keys stay 1..n |
| Ingest.ChannelIngestIdempotent | src/routes/discord.py:26-39 | sending a channel again returns the row the first request stored or found, with the table unchanged |
| Ingest.NormalizeUtcMarker | src/routes/discord.py:80 | no `Z` is left, and a string without `Z` is unchanged |
| Ingest.UnmarkedTimestampParsedAsSent | src/routes/discord.py:76-84 | a timestamp string without `Z` is parsed unchanged, and an unparseable one stamps the message with now |
| Ingest.TrailingZIsUtc | src/routes/discord.py:80 | a trailing `Z` resolves like an explicit `+00:00`, whatever precedes it |
| Ingest.InsertMessage | src/routes/discord.py:86-105 | never reports an existing row; creates a row exactly when all seven required keys carry a value; a created row gets primary key `\|rows\|+1` and created_at = now |
| Ingest.IngestMessage | src/routes/discord.py:66-105 | the table only grows, by exactly the created row, and is unchanged on any other reply |
| Ingest.MessageReplayReturnsStored | src/routes/discord.py:71-74 | a stored external ID gets that row back with 200 and an unchanged table, even with other keys missing |
| Ingest.IngestMessageKeepsTable | src/models/message.py:8 | at most one message per external ID, and primary keys stay 1..n |
| Ingest.MessageIngestIdempotent | src/routes/discord.py:71-105 | sending a message again returns the row the first request stored or found, and adds nothing |
| Ingest.MessageDefaults | src/routes/discord.py:86-100 | a complete new message is appended with 201; content defaults to '' (null stays null), message_type to 'text' and is_bot to false (absent or null), avatar and media to null; any message_type string is kept |
| Ingest.MessageCreatedFromRequest | src/routes/discord.py:86-105 | a complete new message is appended with 201 and stores its external ID, user_id, username, channel_id, channel_name, server_id and server_name as sent, and any avatar_url, content, message_type, media_url, media_filename or is_bot sent with a value as that value |
| Ingest.MessageMissingKeyFails | src/routes/discord.py:86-96 | a new message lacking any of user_id, username, channel_id, channel_name, server_id or server_name fails with a KeyError naming an absent required key and stores nothing |
| Ingest.MessageNullFieldFails | src/routes/discord.py:86-105 | a new message with every required key but JSON null in one of them fails with a NOT NULL violation and stores nothing |
| Ingest.TwoChannelsOnTwoServers | src/routes/discord.py:160-171 | after two channels on two servers, stats report the message count, 2 channels and 2 servers |
| Ingest.Archive.CreateChannel | src/routes/discord.py:21-39 | the channel table and reply are those of `IngestChannel`; the message table is untouched; the table invariant is kept |
| Ingest.Archive.CreateMessage | src/routes/discord.py:66-105 | the message table and reply are those of `IngestMessage`; the channel table is neither read nor changed, so a message may name a channel with no channel row |
| Upload.Extension | src/routes/discord.py:13 | none exactly when the name has no dot; otherwise the text after the last dot |
| Upload.ExtensionAtLastDot | src/routes/discord.py:13 | a dot with no dot after it is where the extension is split |
| Upload.AllowedFileIff | src/routes/discord.py:10-13 | a name passes exactly when some dot has no dot after it and the text after it, lower-cased, is one of png/jpg/jpeg/gif/webp/mp3/wav/ogg/m4a |
| Upload.UpperCaseImageAllowed | src/routes/discord.py:12-13 | `photo.PNG` passes |
| Upload.ForeignExtensionRejected | src/routes/discord.py:12-13 | `payload.exe` fails |
| Upload.NamesWithoutExtensionRejected | src/routes/discord.py:12-13 | `png` and `x.` fail |
| Upload.Folder | src/routes/discord.py:121-125 | an image extension (any case) goes to `images`, an audio extension to `audio`, and an extension off the allow-list to `audio` as well |
| Upload.HandleUpload | src/routes/discord.py:107-143 | a saved file is in `images` or `audio` and is named by the sanitised name |
| Upload.UploadRejections | src/routes/discord.py:110-143 | 400 exactly when the file part is missing, the name is empty or the name fails the allow-list, with the matching error text |
| Upload.UploadRouting | src/routes/discord.py:118-141 | the split fails exactly when the sanitised name has no dot; a saved file answers 200 with filename = sanitised name, url = `/uploads/<type>/<name>`, type `images` iff the sanitised extension is an image one and `audio` otherwise |
| Upload.ImageAudioDisjoint | src/routes/discord.py:10 | no extension is both an image and an audio extension |
| Upload.UploadRoutingPreservedExtension | src/routes/discord.py:117-125 | when sanitising keeps the extension, an accepted file is saved under `images` for image and `audio` for audio extensions |
| Upload.DotOnlyNameFailsAfterSanitizing | src/routes/discord.py:117-121 | `.png` passes the allow-list, but if sanitising yields `png` the upload fails with the IndexError outcome |
| Upload.UploadUrlRoundTrip | src/routes/discord.py:136 | the URL determines the folder and the stored name |
| Upload.MediaStore.Upload | src/routes/discord.py:127-141 | the reply is the upload decision; a saved file replaces the entry `<type>/<name>`; every rejection or failure writes nothing |

## Left out

- Flask and SQLAlchemy plumbing is not modelled: request parsing, `jsonify`,
  sessions, transactions and commits. Only the effect on the two tables is
  kept.
- Concurrent ingestion is not modelled. Two requests with the same external
  ID can race past the existence check; there the database's unique
  constraint decides, which a sequential model cannot show.
- A request body that is not JSON (`request.json` is None) is not modelled.
  Neither are JSON values of the wrong kind, such as a number for a string
  column.
- Column length limits are not modelled: `String(50)` and the like.
- The database's `LIKE` semantics for `.contains` are not modelled:
  SQLite's ASCII case folding, and `%` and `_` inside the search string.
  Search is a plain case-sensitive substring test on non-null content.
- Ingest.Archive.CreateMessage: uses one clock reading `now` for the
  timestamp fallback and for `created_at`, where the source reads the clock
  twice.
- Ingest.ResolveTimestamp: a truthy non-string timestamp is assumed to be an
  instant already. The model does not capture the database rejecting a value
  it cannot store in a DateTime column.
- Upload.MediaStore.Upload: the filesystem is a map from `<type>/<name>` to
  bytes. `os.makedirs`, the static folder's location and write failures are
  not modelled.
- `isoformat`, `fromisoformat`, `secure_filename` and `utcnow` are library
  code and are parameters here. Nothing about their behaviour is assumed
  beyond what each lemma states in its own requires.
- The browser front end (`src/static/js/main.js`) is not part of this model.
  Neither is the bot client (`bot_integration_example.py`); its extension
  check repeats the allow-list modelled here.
- The sample-data seeder (`add_sample_data.py`) is not part of this model:
  it draws random data and resets the database.
