# claude_chat: a verified model of the chat back end

This project models the core of a small Flask chat application, as Dafny and with proofs:

- a SQLite store of conversations and messages (`claude_chat/database.py`);
- the request-side logic of its chat endpoint (`claude_chat/app.py`);
- two helpers (`claude_chat/utils.py`).

## Modules

- `Seqs` (`seqs.dfy`): generic sequence operations the store's SQL is built from.
  - `Filter` is a `WHERE` clause.
  - `SortBy` is an `ORDER BY`, an insertion sort under a total preorder.
  - `ConcatMap` concatenates per-element strings.
  - It also has the facts about them: membership, multiplicities, id order and absence of duplicates.
- `Strings` (`strings.dfy`): `str.lower()` on ASCII letters, substring search, `str.rfind` of a character, and the decimal text of an id (`str(id)` / `int(text)`), with the round trip between the last two.
- `Store` (`store.dfy`): the two tables, as sequences of rows in rowid order.
  - The class `Database` holds the tables and the two AUTOINCREMENT counters.
  - Every write of the store is a method that states the whole new state.
  - The two reads are functions:
    - `ActiveConversations` for `get_conversations`;
    - `ConversationMessages` for `get_conversation_messages`, whose `ROW_NUMBER() OVER (PARTITION BY role, content ORDER BY timestamp DESC, id DESC) = 1` becomes the predicate `IsLatestCopy`.
  - The two duplicate sweeps are one generic `Sweep`, ranked by the highest id (`cleanup_duplicate_messages`) or by the lowest id (`cleanup_database`). On the groups `(conversation_id, role, content, timestamp)` it keeps exactly the `id IN (SELECT MAX|MIN(id) ... GROUP BY ...)` rows.
- `Utils` (`utils.dfy`):
  - the greedy keep-the-newest loop of `truncate_messages_to_token_limit`, with the tokenizer as a parameter;
  - the three-way classification of `format_error_message`.
- `App` (`app.dfy`):
  - extension extraction (`os.path.splitext` on POSIX, then `lower()`);
  - the two allow-lists and the 10 MB limit;
  - the upload gate, as a function `Gate` plus the loop `ProcessUploads` proved equal to it;
  - the assembly of the user message and of the list sent to the model;
  - resolution of the conversation id;
  - the endpoint `Chat`, composed of `OpenConversation` (sweep, resolve, create), `Respond` (gate, user message, request) and `Relay` (model call, assistant message).

  The predicate `Answered` states the outcome of a request on an existing conversation, over the whole store: the value `Tables` holds both tables and both counters, and `StoreMessage` is add_message on it. Lemmas draw the promised properties out of it.

## Modelling decisions

- Timestamps are integers passed in by the caller. This means:
  - `datetime.now()` in `add_message`;
  - `CURRENT_TIMESTAMP` in `create_conversation`;
  - the time of the model's reply.
- The model client is a function `upstream` from the request to a reply text or the text of the exception it raised.
- An upload arrives with the outputs of the code outside the model:
  - its size;
  - its content decoded as text;
  - what `process_image` makes of it: base64 data, or the text of its exception.
- A conversation created by the endpoint gets the title `newTitle`.
- The AUTOINCREMENT counters make ids strictly increasing in table order (`Database.Valid`). Every id-based argument, such as "the primary key identifies a row" or "MAX(id) is unique in its group", rests on that invariant.
- `add_message` skips the insert when *any* message of the conversation already has the same role and content. Its probe `ORDER BY timestamp DESC LIMIT 1` only chooses which matching row it reads; it does not limit the check to the most recent message. The model follows the code, not a reading of it as "the same as the previous message".
- A file named exactly `.env` has no extension under `os.path.splitext`, so it is refused although `.env` is on the text list; a file such as `settings.env` is accepted (`App.DotEnvNameHasNoExtension`, `App.NamedEnvFileAccepted`).
- An id sent to the chat endpoint is matched as text against `str(id)`, so `07` names no conversation (`App.LeadingZeroIsInvalid`).

## Model

| member | source | states |
|---|---|---|
| Strings.Lower | claude_chat/utils.py:25 | same length, every character lower-cased pointwise, no ASCII capital remains |
| Strings.NatToString | claude_chat/app.py:201 | `str(id)`: at least one character, all decimal digits, and a leading zero only for the id 0 |
| Strings.ParseNat | claude_chat/app.py:205 | `int(text)` of a digit string is 0 iff every digit is `0` |
| Strings.ParseNatToString | claude_chat/app.py:201-205 | `int(str(id)) == id` for every id |
| Strings.NatToStringInjective | claude_chat/app.py:201 | distinct ids have distinct decimal texts |
| Store.ActiveConversations | claude_chat/database.py:96-101 | every conversation occurs as often as in the table if not archived and never if archived; the list is ordered by updated_at descending |
| Store.HasConversation | claude_chat/database.py:163-169 | the probe finds a row iff some position of the table holds a conversation with that id |
| Store.HasCopy | claude_chat/database.py:174-178 | the duplicate probe: some row of the conversation has this role and content (its count form is `HasCopyIffCounted`) |
| Store.HasCopyIffCounted | claude_chat/database.py:174-178 | the duplicate probe finds a row iff the conversation holds at least one copy of (role, content) |
| Store.IsLatestCopy | claude_chat/database.py:119-133 | the `ROW_NUMBER() ... = 1` test: the row belongs to the conversation and no row of its (role, content) partition is later; what it selects is stated by `ConversationMessages` |
| Store.ConversationMessages | claude_chat/database.py:111-135 | a row is returned iff it belongs to the conversation and no row of its (role, content) partition is later in (timestamp, id); the result is sorted ascending by (timestamp, id) |
| Store.EveryPairHasLatestCopy | claude_chat/database.py:119-133 | every (role, content) present in the conversation is represented in its history |
| Store.OneRowPerPair | claude_chat/database.py:119-134 | with a primary key the history has one row per (role, content), strictly ascending in (timestamp, id) |
| Store.Sweep | claude_chat/database.py:240-247 | the sweep shared by both cleanups (lines 42-49 rank by the lowest id): every row survives at most as often as it occurs, and id order is kept |
| Store.KeepMaxIdPerGroup | claude_chat/database.py:240-247 | only rows, in id order, survive; a row survives iff no row of its group has a higher id |
| Store.KeepMinIdPerGroup | claude_chat/database.py:42-49 | only rows, in id order, survive; a row survives iff no row of its group has a lower id |
| Store.SweepMembership | claude_chat/database.py:242-246 | the `id IN (SELECT MAX/MIN(id) ...)` rows are exactly the first-ranked row of each group |
| Store.SweepLeavesNoDuplicates | claude_chat/database.py:240-247 | after a sweep no two rows share (conversation_id, role, content, timestamp) |
| Store.SweepKeepsEveryGroup | claude_chat/database.py:243-245 | a sweep keeps a row of every group |
| Store.SweepIdempotent | claude_chat/database.py:240-247 | sweeping a swept table changes nothing |
| Store.KeepMaxIdPerGroupIdempotent | claude_chat/database.py:234-251 | cleanup_duplicate_messages is idempotent |
| Store.KeepMaxIdPerGroupComplete | claude_chat/database.py:240-247 | after cleanup_duplicate_messages no two rows share a group and every group of the old table is still present |
| Store.UniqueRowsSurvive | claude_chat/database.py:240-247 | a row without a duplicate survives both sweeps |
| Store.SweepsAgreeUpToId | claude_chat/database.py:42-49 | both sweeps keep a row of the same groups; the kept id of cleanup_duplicate_messages is never below that of cleanup_database |
| Store.RemoveOrphans | claude_chat/database.py:34-39 | a message stays, with its multiplicity, iff its conversation exists; id order is kept |
| Store.CleanedMessages | claude_chat/database.py:34-49 | every remaining message was in the table and names an existing conversation; id order is kept |
| Store.CleanedMessagesHaveNoDuplicates | claude_chat/database.py:34-49 | after cleanup_database no two rows share (conversation_id, role, content, timestamp) |
| Store.CleanupDatabaseIdempotent | claude_chat/database.py:27-55 | cleanup_database is idempotent |
| Store.DeleteConversationMessages | claude_chat/database.py:209 | the rows of the conversation are removed and every other row is kept with its multiplicity |
| Store.DeleteConversationRow | claude_chat/database.py:211 | the conversation's row is removed and every other conversation is kept |
| Store.DeletedConversationHasNoHistory | claude_chat/database.py:209-214 | after the delete the conversation's history is empty |
| Store.DeleteKeepsOwnership | claude_chat/database.py:209-211 | deleting messages before the conversation leaves no orphan behind |
| Store.MessageIdsIdentifyRows | claude_chat/database.py:76 | in id order two rows with the same id are the same row |
| Store.AppendInIdOrder | claude_chat/database.py:76 | a row with a fresh AUTOINCREMENT id keeps the table in id order |
| Store.Touch | claude_chat/database.py:188-192 | only the updated_at of rows with that id changes, to the given time |
| Store.Retitle | claude_chat/database.py:223-227 | only the title of rows with that id changes |
| Store.Database.constructor | claude_chat/database.py:63-83 | a new database has empty tables and counters at zero |
| Store.Database.InitDb | claude_chat/database.py:57-90 | with the tables in place only the cleanup has an effect; afterwards no message is orphaned |
| Store.Database.CleanupDatabase | claude_chat/database.py:27-55 | the messages become the cleaned table, the conversations are unchanged, no orphan remains |
| Store.Database.CleanupDuplicateMessages | claude_chat/database.py:234-251 | the messages become the max-id sweep, the conversations are unchanged |
| Store.Database.CreateConversation | claude_chat/database.py:142-156 | one non-archived row with a fresh id (counter + 1) and both timestamps `now` is appended; nothing else changes |
| Store.Database.AddMessage | claude_chat/database.py:158-201 | a missing conversation changes nothing and reports it; a stored copy of (role, content) changes nothing; otherwise one row with the next id is appended and only that conversation's updated_at becomes the same time; whenever the conversation exists the whole store (both tables, both counters) becomes `StoreMessage` of the old store and the conversation still exists |
| Store.Database.DeleteConversation | claude_chat/database.py:203-217 | returns true; the conversation's messages and row are gone, everything else is kept |
| Store.Database.UpdateConversationTitle | claude_chat/database.py:219-232 | only the title of the matching row changes |
| Store.StoreOnce | claude_chat/database.py:174-185 | the message table after add_message: unchanged iff a copy of (role, content) is already stored; otherwise it extends the old one by exactly one row, of the given conversation, role and content with the fresh id; either way it holds such a row |
| Store.StoreMessage | claude_chat/database.py:158-192 | the whole store after add_message on an existing conversation: its messages are the stored-once table with the next id, it is unchanged iff a copy is already stored, the conversation ids and the conversation counter are kept |
| Store.StoreMessageGrows | claude_chat/database.py:180-186 | add_message keeps the old rows as a prefix, adds at most one row, the message with the next id, and raises the counter by at most one |
| Store.StoreMessageKeepsOtherCopies | claude_chat/database.py:174-186 | storing one (role, content) leaves the presence of every other pair of the conversation as it was |
| Store.NewRowStampsConversation | claude_chat/database.py:180-192 | a row not yet held is stored last under the new counter value, and the conversation's updated_at becomes its time |
| Store.StoreMessageStampsOnly | claude_chat/database.py:188-192 | add_message changes no conversation row but its own, and there only updated_at, to the message time |
| Store.StampedOnlyCompose | claude_chat/database.py:188-192 | two such updates in a row change only updated_at of the same conversation, to a time of either |
| Store.StoreTwoMessages | claude_chat/app.py:239-272 | two add_message calls with different roles: the first pair is present after both, the old table is a prefix, at most two rows are added, all of the conversation |
| Store.InsertKeepsTablesValid | claude_chat/database.py:180-192 | the INSERT with the next AUTOINCREMENT id and the UPDATE of updated_at keep both tables in id order within their counters, keep the conversation, and keep every message owned |
| Store.DeleteKeepsTablesValid | claude_chat/database.py:209-211 | the two DELETE statements keep both tables in id order within their counters and keep every message owned |
| Store.FirstCopyCountsOne | claude_chat/database.py:174-185 | inserting the first copy leaves exactly one matching row |
| Store.SubmitTwice | claude_chat/database.py:174-197 | two identical add_message calls: the second is always skipped, and exactly one matching row exists when there was none |
| Utils.TruncateToTokenLimit | claude_chat/utils.py:9-21 | the result is a suffix of the input, fits the budget, cannot grow by the next older message, and is empty when the newest message alone is too big |
| Utils.SuffixTotalMonotone | claude_chat/utils.py:14-19 | a longer suffix never costs fewer tokens |
| Utils.LongerSuffixOverBudget | claude_chat/utils.py:16-17 | once the next older message does not fit, no longer suffix fits |
| Utils.TruncationIsUnique | claude_chat/utils.py:14-19 | fitting and not growing determine how many messages are kept |
| Utils.FormatErrorMessage | claude_chat/utils.py:23-30 | the rate-limit message iff the lower-cased text contains "rate limit"; the too-long message iff it does not but contains "maximum context length"; otherwise "An error occurred: " + the text |
| Utils.RateLimitIgnoresCase | claude_chat/utils.py:25-26 | "429: RATE LIMIT reached" is classified as a rate limit |
| App.SplitExtension | claude_chat/app.py:48 | the extension is "" or a suffix starting at the name's last dot, containing no further dot or slash; it is non-empty iff that dot is in the last path component and is preceded there by a non-dot |
| App.GetFileExtension | claude_chat/app.py:47-48 | the lowered splitext suffix: "" or a dot followed by no dot or slash |
| App.LowerKeepsExtensionShape | claude_chat/app.py:47-48 | lower-casing keeps the leading dot and adds no dot or slash |
| App.IsAllowedFile | claude_chat/app.py:50-51 | a name passes only with a dot in it, unless "" is on the list |
| App.IsImageFile | claude_chat/app.py:53-54 | the same test as is_allowed_file with the image list; an image name contains a dot |
| App.IsTextFile | claude_chat/app.py:56-57 | the same test as is_allowed_file with the text list; a text file name contains a dot |
| App.FileKindsAreExclusive | claude_chat/app.py:34-57 | no file is both an image and a text file; allowed means one of the two |
| App.UpperCaseImageAccepted | claude_chat/app.py:47-54 | `photo.JPG` has extension `.jpg` and is an image |
| App.DoubleExtensionUsesLast | claude_chat/app.py:47-57 | `backup.tar.gz` has extension `.gz` and is neither kind |
| App.DotEnvNameHasNoExtension | claude_chat/app.py:34-57 | a file named `.env` has no extension and is neither kind |
| App.NamedEnvFileAccepted | claude_chat/app.py:34-57 | `settings.env` is a text file |
| App.Admit | claude_chat/app.py:209-228 | the checks on one upload: only a named upload can be refused, and an accepted one yields at most one attachment (exactly which is `AdmitVerdicts`) |
| App.AdmitVerdicts | claude_chat/app.py:210-228 | an upload is skipped iff it has no name; refused iff too large, on neither list, or an undecodable image; otherwise one attachment, an image iff its extension is an image extension |
| App.AdmitCount | claude_chat/app.py:210-224 | an accepted upload yields one attachment if named and none otherwise |
| App.DropFirst | claude_chat/app.py:95 | the extension without its first character; "" stays "" |
| App.Gate | claude_chat/app.py:208-228 | the upload loop as a whole: an accepted request has at most one attachment per upload (exactly one per named upload by `GateAttachmentCount`) |
| App.GateConcat | claude_chat/app.py:208-228 | the gate over two batches is the combination of the two gates: first rejection wins, attachments keep upload order |
| App.GateRejectsIff | claude_chat/app.py:208-228 | the request is refused iff some upload is refused |
| App.GateRejectionIsFirst | claude_chat/app.py:216-228 | the error is that of the first refused upload; all earlier uploads passed |
| App.GateAttachmentCount | claude_chat/app.py:208-224 | an accepted request has one attachment per named upload |
| App.ProcessUploads | claude_chat/app.py:207-228 | the upload loop computes the gate |
| App.FileBlock | claude_chat/app.py:234-236 | the block of one attachment is empty iff it is an image |
| App.TextBlocksSplit | claude_chat/app.py:234-236 | each attachment's block sits between the blocks of the earlier and the later uploads |
| App.TextBlocksIgnoreImages | claude_chat/app.py:234-236 | images contribute nothing: the blocks are those of the text files alone |
| App.BuildFullMessage | claude_chat/app.py:230-236 | the user message is the typed message followed by the text-file blocks in upload order |
| App.Images | claude_chat/app.py:251 | only image attachments are selected |
| App.RequestIsDetermined | claude_chat/app.py:245-257 | the request shape determines the request |
| App.BuildApiMessages | claude_chat/app.py:244-257 | the request has length history + images: the (role, content) of each history row in order, then one user `<image>` entry per image in upload order |
| App.NamesConversation | claude_chat/app.py:201 | a text that names a conversation is non-empty, is not "null", and is all digits |
| App.DecimalIdText | claude_chat/app.py:201-205 | an id text that names a conversation is all digits and reads back to that conversation's id |
| App.ResolveConversation | claude_chat/app.py:195-205 | no id, "" or "null" creates a conversation; otherwise invalid iff no active conversation has that decimal id text; an accepted id is that of an active conversation |
| App.ResolveActiveConversation | claude_chat/app.py:199-205 | the id text of an active conversation selects it |
| App.ResolveHiddenConversation | claude_chat/app.py:199-202 | the id of an archived or missing conversation is invalid |
| App.LeadingZeroIsInvalid | claude_chat/app.py:201 | "07" names no conversation |
| App.RejectionResponse | claude_chat/app.py:216-228 | a refused upload is answered with a 400 iff it is too large or of an unsupported type; an image that cannot be processed becomes a 500 (lines 279-282); the answer is never the invalid-id 400 |
| App.AcceptedSteps | claude_chat/app.py:238-272 | after accepted uploads the store is add_message of the user message, followed, when the model replies, by add_message of the reply |
| App.BadRequestStoresNothing | claude_chat/app.py:207-239 | a 400 answer stores no message, and an invalid id is never the answer once resolution passed |
| App.UserMessageStoredFirst | claude_chat/app.py:238-272 | once the uploads pass, the user message is stored, the old table is a prefix of the new, at most two rows are added, all of the conversation |
| App.FailedCallStoresNoReply | claude_chat/app.py:262-282 | when the model client raises, the answer is the formatted error as a 500, at most the user row is added, and the message counter rises by at most one |
| App.OnlyTargetTouched | claude_chat/app.py:238-272 | a request creates no conversation and changes no conversation row but its own, and there only updated_at, to the time of the user message or of the reply (add_message, database.py:188-192) |
| App.ReplyIsStored | claude_chat/app.py:269-277 | a reply is returned with the conversation id and stored as an assistant row |
| App.NewReplyStampsConversation | claude_chat/app.py:269-272 | a reply the conversation does not hold yet is its newest row, under the latest id, and the conversation's updated_at is the reply time |
| App.RequestCarriesUserMessage | claude_chat/app.py:239-248 | the request sent to the model contains the user message just stored |
| App.Respond | claude_chat/app.py:207-277 | a refused upload changes nothing; otherwise the whole store (both tables and counters) and the answer are as `Answered` states: add_message of the user message at `now`, then, on a reply, add_message of the reply at the reply time |
| App.Relay | claude_chat/app.py:262-282 | an exception becomes a 500 and changes nothing; a reply is returned and the whole store becomes add_message of it at the reply time |
| App.OpenConversation | claude_chat/app.py:189-205 | the resolution is computed on the active conversations; the store becomes `Opened`: messages swept, a new conversation (next id, both timestamps `now`) created only when none was named; the resolved conversation exists |
| App.Chat | claude_chat/app.py:187-282 | an invalid id answers 400 after the sweep alone; otherwise the outcome is `Answered` from the store `Opened` leaves, and a refused upload leaves only the sweep and a conversation created for the request |

## Left out

- process_image: PIL decoding, RGB conversion, resizing to 2048 pixels, JPEG encoding and base64 are foreign library work and floating point; an upload carries their result or their exception text.
- process_text_file: the UTF-8 decoding with `errors='ignore'` and the size measurement by seeking are library work; an upload carries the decoded text and the size.
- estimate_tokens: the tiktoken encoder is a parameter `estimate: string -> nat`.
- The Anthropic client call (model name, max_tokens, temperature, `response.content[0].text`) is the parameter `upstream`; an exception is represented by its text.
- `datetime.now()` and `CURRENT_TIMESTAMP` are integer parameters from one ordered clock. The source differs in two ways, and neither is modelled:
  - it stores two text formats (ISO 8601 from `datetime.now().isoformat()`, `YYYY-MM-DD HH:MM:SS` from SQLite), which SQLite compares as text;
  - `CURRENT_TIMESTAMP` is UTC (database.py:67-68) while `datetime.now()` is local time (database.py:171).
  Both change the `ORDER BY updated_at DESC` of get_conversations (database.py:99) between a conversation only created and one that has received a message.
- The new conversation's title `Chat <date and time>` is the parameter `newTitle`.
- The other Flask routes are not modelled: `/`, `/conversations`, `POST /conversation` with its default title, `GET`/`DELETE /conversation/<id>`, and `PUT .../title` with its 400 on an empty title. Neither are the error handlers, CORS, templates, logging or startup. Each route is a thin wrapper around a store operation that is modelled.
- Store.Database.DeleteConversation: always returns true, because database failures are not modelled. For the same reason, the source's swallowed failures are left out: `return []` in the reads, `return False` in the delete, and the logged-only failure of cleanup_duplicate_messages.
- Connection handling (`get_db`, commit, close) is left out; each method is one committed transaction.
- Strings.Lower: lower-cases ASCII letters only, because Unicode case mapping is not modelled.
- App.SplitExtension: models POSIX `os.path.splitext` only, with `/` as the only separator.
- The check-then-insert race of add_message exists only under concurrent requests and is not modelled.
- truncate_messages_to_token_limit is imported by app.py but never called; it is modelled on its own.
- The browser script `claude_chat/static/js/main.js` and the configuration `claude_chat/config.py` are not part of this model.
- App.Respond: the "Conversation does not exist" exception of add_message cannot arise after resolution and is not given a branch.
