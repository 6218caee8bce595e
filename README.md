# Chats backend: a verified model

This project models the core of a Django chat backend in Dafny. Users create chat
rooms, add participants, post messages and attach files. Every endpoint scopes what
a user may see to the chats they belong to.

The model replaces the ORM and its database with an in-memory relational store,
the class `Store.Database`:
- one map per table, keyed by primary key, and the set of existing user ids;
- a monotone clock that issues the automatic timestamps;
- the next free primary keys.

`Database.Valid()` is the store's integrity, and every operation preserves it:
- keys agree with rows;
- foreign keys resolve;
- timestamps were issued by the clock;
- a file row's handle is committed, and its type and size are the handle's.

The layers follow the program's structure:

- **Records** (`ChatModel`, `MessageModel`, `FileModel`):
  - field defaults and the title bound
  - participants as a set
  - the string forms
  - the upload path, and the name the default file storage makes of it
    (`Storage`: whitespace stripped, spaces turned into '_', other characters
    outside letters, digits, '_', '-' and '.' dropped)
  - the derivation of a file's name, type and size from its handle
  - the cascades when a chat or a user is deleted
- **Query layer** (`ChatQueries`, `MessageQueries`, `FileQueries`): every queryset
  filter and ordering, as a function on a sequence of rows. Two generic operations
  carry the proofs, both in `Seqs`:
  - `Select`, a filter that keeps the input's order and multiplicities;
  - `SortBy`, a sorted permutation.
- **`File.save`** (`FileObjects.FileInstance`): a class whose `Save` overwrites the
  three derived fields, commits the handle under the name the storage generates
  from its upload path, and writes the row.
- **Repository** (`Repositories.ChatRepository`): lookups are functions of the
  store. Create, update, participant changes and delete are methods with frame and
  "nothing else changes" contracts.
- **Serializer** (`ChatSerializers`):
  - validation strips the title and the prompt, then checks the title's length
    and refuses a NUL character in either, reporting every error found;
  - `create` makes the requester the creator;
  - `update` assigns the supplied attributes in a loop, saves the whole row, then
    replaces the participants only when `participant_ids` is supplied.
- **Endpoints** (`ChatViews`, `MessageViews`, `FileViews`):
  - the visibility rules;
  - the not-found guard on creation;
  - the ordered 400/404/200 checks of the participant actions;
  - the `context` lookup;
  - the headers `download` sets, and what the JSON renderer leaves of them
    (`Http.Rendered`).

Authentication is outside the model: the requesting user is a parameter. So are the
clock readings, which come from `Database.Tick`.

Two behaviours of the code, stated plainly:
- `update_chat` saves with `update_fields`, so `updated_at` keeps its value.
- `download` sets headers and returns no file content.

## Model

| member | source | states |
|---|---|---|
| `ChatModel.ChatStr` | applications/chats/models/chat.py:22-23 | the string form is the title, or "Chat <id>" when the title is blank; it is never empty |
| `ChatModel.AddParticipantIdempotent` | applications/chats/models/chat.py:13 | participants form a set: adding a user twice gives one membership, and adding a member changes nothing |
| `ChatModel.RemoveParticipantIdempotent` | applications/chats/models/chat.py:13 | removing a non-member changes nothing; adding then removing a non-member restores the chat |
| `ChatModel.CascadeUserDelete` | applications/chats/models/chat.py:12-13 | deleting a user deletes exactly the chats they created, and removes them from the participants of every other chat |
| `ChatModel.WithParticipant` | applications/chats/repositories/chat_repository.py:148 | `participants.add(u)`: the participants gain exactly `u`, and no other column changes |
| `ChatModel.WithoutParticipant` | applications/chats/repositories/chat_repository.py:166 | `participants.remove(u)`: the participants lose exactly `u`, and no other column changes |
| `MessageModel.Cascade` | applications/chats/models/message.py:9-15 | a message survives the deletion of chats and users exactly when neither its chat nor its sender is deleted |
| `FileModel.Cascade` | applications/chats/models/file.py:14-23 | a file survives exactly when neither its chat nor its uploader is deleted |
| `FileModel.GetFilePath` | applications/chats/models/file.py:9-10 | the upload path is "chat_files/<chat id>/<filename>"; its final component is the filename's, and is the filename itself when that holds no '/' |
| `Text.Basename` | applications/chats/models/file.py:35 | `os.path.basename`: the final path component, which holds no '/' |
| `Text.BasenameOfPlain` | applications/chats/models/file.py:35 | a name without '/' is its own final component |
| `Text.BasenameAfterSlash` | applications/chats/models/file.py:9-10 | the final component of "<dir>/<name>" is the name's final component, whatever the directory |
| `Text.Dirname` | applications/chats/models/file.py:9-10 | the directory part of a path, what precedes its last '/': shorter than the path, or empty |
| `Text.SplitPath` | applications/chats/models/file.py:9-10 | a path holding a '/' is its directory, '/', and its final component |
| `Text.DirnameAfterSlash` | applications/chats/models/file.py:9-10 | the directory of "<dir>/<name>" is the directory, when the name holds no '/' |
| `Storage.Sanitize` | applications/chats/models/file.py:17 | the result holds name characters only and is no longer than the input |
| `Storage.SanitizePlain` | applications/chats/models/file.py:17 | a name of name characters only is left as it is |
| `Storage.SanitizeAppend` | applications/chats/models/file.py:17 | sanitizing works character by character over a concatenation |
| `Storage.GetValidFilename` | applications/chats/models/file.py:17 | `get_valid_filename` refuses exactly the names whose stripped, sanitized form is empty, "." or ".."; an accepted form is plain and holds no '/' |
| `Storage.ValidNameKeepsPlain` | applications/chats/models/file.py:17 | a plain name that is neither empty, "." nor ".." is accepted unchanged |
| `Storage.ValidNameIdempotent` | applications/chats/models/file.py:17 | the valid form of a name is its own valid form |
| `Storage.SpaceBecomesUnderscore` | applications/chats/models/file.py:17 | a space between two plain words becomes '_' |
| `Storage.OtherCharacterDropped` | applications/chats/models/file.py:17 | a character that is neither a name character nor a space is dropped |
| `Storage.StoredNameIsValidForm` | applications/chats/models/file.py:17 | a path is one the storage wrote exactly when its final component is its own valid form |
| `Storage.GenerateFilename` | applications/chats/models/file.py:9-17 | refused exactly when the final component has no valid form; else the directory is kept and the final component becomes its valid form |
| `Storage.GenerateStoredName` | applications/chats/models/file.py:9-17 | a name the storage wrote is generated again unchanged |
| `FileModel.DeriveFields` | applications/chats/models/file.py:34-37 | the derived name is the handle name's final path component, so it holds no '/'; type and size are the handle's content type and size |
| `FileModel.FieldFileAttribute` | applications/chats/models/file.py:35-37 | the handle `save` reads has a `name` and a `size` and no `content_type` |
| `FileModel.DeriveFieldsAsWritten` | applications/chats/models/file.py:35-37 | reading the three attributes in order fails on the first missing one, naming it |
| `FileModel.SaveAsWrittenAlwaysRaises` | applications/chats/models/file.py:36 | as written every save raises `AttributeError` for `content_type`, whatever the handle |
| `FileModel.Commit` | applications/chats/models/file.py:17 | a committed handle is left alone; an upload is refused exactly when the final component of its name has no valid form, else committed under a name whose final component is that valid form; type and size are kept |
| `FileModel.CommitPlainName` | applications/chats/models/file.py:9-10 | an upload whose name holds no '/' is committed as "chat_files/<chat id>/<valid form of the name>" |
| `FileModel.CommitAgrees` | applications/chats/models/file.py:34-38 | after a first commit the derived name's valid form is the committed name's final component, and that name is one the storage wrote |
| `FileModel.SaveTwice` | applications/chats/models/file.py:34-38 | a second save commits nothing again and keeps type and size; after a first commit the name it derives is the storage's valid form of the first save's name |
| `FileModel.SaveTwiceKeepsValidName` | applications/chats/models/file.py:34-38 | a name that is already its own valid form is derived unchanged by both saves |
| `FileModel.SecondSaveRenames` | applications/chats/models/file.py:34-38 | for two plain words joined by a space, the first save records the name with the space, the commit stores "chat_files/<chat id>/<words joined by '_'>", and a second save records the '_' form ("My Report.pdf" gives "My_Report.pdf") |
| `FileModel.FileStr` | applications/chats/models/file.py:31-32 | the string form is the file name, or "File <id>" when it is blank |
| `FileObjects.FileInstance.Refresh` | applications/chats/models/file.py:35-37 | the three derived columns are recomputed from the handle as it stands; nothing else changes |
| `FileObjects.FileInstance.CommitFile` | applications/chats/models/file.py:38 | the handle becomes its committed form, or stays as it was when the storage refuses its name; no other field changes |
| `FileObjects.FileInstance.PreSave` | applications/chats/models/file.py:34-38 | the columns are derived from the handle before its commit; success exactly when the commit succeeds; after a first commit the derived name's valid form is the committed name's final component |
| `FileObjects.FileInstance.SaveBase` | applications/chats/models/file.py:38 | the row is inserted (new key, upload time later than every stored file) or updated (same key and upload time); an unresolved foreign key writes nothing |
| `FileObjects.FileInstance.Save` | applications/chats/models/file.py:34-38 | whatever the prior values, the name, type and size come from the handle as it was; a refused name fails with nothing written; else the handle is committed and the row is inserted or updated as above, or nothing is written when a foreign key does not resolve; a first save of an upload stores a row whose name agrees with its committed handle |
| `ChatQueries.Active` | applications/chats/managers/chat.py:5-6 | keeps exactly the active chats, with their multiplicities, as a subsequence |
| `ChatQueries.Inactive` | applications/chats/managers/chat.py:8-9 | keeps exactly the inactive chats, as a subsequence |
| `ChatQueries.WithParticipant` | applications/chats/managers/chat.py:11-12 | keeps exactly the chats the user takes part in |
| `ChatQueries.CreatedByUser` | applications/chats/managers/chat.py:14-15 | keeps exactly the chats the user created |
| `ChatQueries.Recent` | applications/chats/managers/chat.py:17-18 | a permutation of the input, most recently updated first |
| `ChatQueries.WithTitle` | applications/chats/managers/chat.py:20-21 | keeps exactly the chats whose lower-cased title contains the lower-cased query |
| `ChatQueries.CreatorOrParticipant` | applications/chats/repositories/chat_repository.py:78-80 | keeps exactly the chats the user created or takes part in, with their multiplicities, as a subsequence |
| `ChatQueries.ActiveInactivePartition` | applications/chats/managers/chat.py:5-9 | every chat is in exactly one of the active and inactive results; their sizes add up to the input's |
| `ChatQueries.ChainedFiltersCommute` | applications/chats/managers/chat.py:4-21 | chained filters give the same result in either order |
| `ChatQueries.WithTitleEmptyQuery` | applications/chats/managers/chat.py:20-21 | an empty search returns the input unchanged |
| `Text.IContainsIgnoresCase` | applications/chats/managers/chat.py:21 | a case-insensitive match does not depend on the case of the title or of the query |
| `Text.IContains` | applications/chats/managers/chat.py:21 | `icontains` holds exactly when the lower-cased query occurs at some position of the lower-cased text |
| `Text.ContainsIffOccurs` | applications/chats/managers/file_manager.py:21 | substring containment holds exactly when the query occurs at some position |
| `Text.Strip` | applications/chats/models/chat.py:9-10 | `str.strip`: no whitespace at either end, no longer than the input, and a text without surrounding whitespace is unchanged |
| `Text.StripLeftRemovesSpaces` | applications/chats/models/chat.py:9-10 | what the left strip removes is whitespace only |
| `Text.StripRightRemovesSpaces` | applications/chats/models/chat.py:9-10 | what the right strip removes is whitespace only |
| `Text.StripIdempotent` | applications/chats/models/chat.py:9-10 | stripping twice strips nothing more |
| `Text.StripTrailingSpace` | applications/chats/models/chat.py:9 | a trailing space after a word without surrounding whitespace is stripped off |
| `MessageQueries.ForChat` | applications/chats/managers/message_manager.py:5-6 | keeps exactly the messages of the chat, as a subsequence |
| `MessageQueries.FromUser` | applications/chats/managers/message_manager.py:8-9 | keeps exactly the messages the user sent |
| `MessageQueries.WithContext` | applications/chats/managers/message_manager.py:11-12 | keeps exactly the messages that have a context index |
| `MessageQueries.WithoutContext` | applications/chats/managers/message_manager.py:14-15 | keeps exactly the messages without a context index |
| `MessageQueries.Recent` | applications/chats/managers/message_manager.py:17-18 | a permutation of the input, newest first |
| `MessageQueries.Oldest` | applications/chats/managers/message_manager.py:20-21 | a permutation of the input, oldest first |
| `MessageQueries.BetweenDates` | applications/chats/managers/message_manager.py:23-24 | keeps exactly the messages created within the range, both ends included |
| `MessageQueries.ContextPartition` | applications/chats/managers/message_manager.py:11-15 | every message is in exactly one of the with-context and without-context results |
| `MessageQueries.BetweenDatesEmptyRange` | applications/chats/managers/message_manager.py:23-24 | a range whose start is after its end matches nothing |
| `MessageQueries.ChainedFiltersCommute` | applications/chats/managers/message_manager.py:4-24 | chained filters give the same result in either order |
| `FileQueries.ForChat` | applications/chats/managers/file_manager.py:5-6 | keeps exactly the files of the chat |
| `FileQueries.UploadedByUser` | applications/chats/managers/file_manager.py:8-9 | keeps exactly the files the user uploaded |
| `FileQueries.ByFileType` | applications/chats/managers/file_manager.py:11-12 | keeps exactly the files whose type equals the given one |
| `FileQueries.Recent` | applications/chats/managers/file_manager.py:14-15 | a permutation of the input, newest upload first |
| `FileQueries.Oldest` | applications/chats/managers/file_manager.py:17-18 | a permutation of the input, oldest upload first |
| `FileQueries.WithName` | applications/chats/managers/file_manager.py:20-21 | keeps exactly the files whose name contains the query, ignoring case |
| `FileQueries.LargerThan` | applications/chats/managers/file_manager.py:23-24 | keeps exactly the files strictly larger than the bound |
| `FileQueries.SmallerThan` | applications/chats/managers/file_manager.py:26-27 | keeps exactly the files strictly smaller than the bound |
| `FileQueries.SizeBoundsStrict` | applications/chats/managers/file_manager.py:23-27 | a file of exactly the bound's size is in neither result; the results are disjoint, and with the equal-size files they account for the whole input |
| `FileQueries.ChainedFiltersCommute` | applications/chats/managers/file_manager.py:4-27 | chained filters give the same result in either order |
| `Store.Database.ChatObjects` | applications/chats/models/chat.py:17-20 | the chat table holds every stored chat exactly once, most recently updated first |
| `Store.Database.MessageObjects` | applications/chats/models/message.py:20-23 | the message table holds every stored message exactly once, oldest first |
| `Store.Database.FileObjects` | applications/chats/models/file.py:26-29 | the file table holds every stored file exactly once, newest upload first |
| `Store.Database.CreateChat` | applications/chats/models/chat.py:14-15 | a new chat gets a fresh key, no participants, and both timestamps from the clock, later than every stored update time |
| `Store.Database.SaveChat` | applications/chats/models/chat.py:15 | a full save writes the columns and refreshes `updated_at` |
| `Store.Database.SaveChatColumns` | applications/chats/repositories/chat_repository.py:128-129 | a save naming columns writes only those columns and leaves `updated_at` as stored |
| `Store.Database.SetParticipants` | applications/chats/serializers/chat_serializer.py:40 | replacing participants either succeeds with exactly the given set, or fails with nothing changed when an id names no user |
| `Store.Database.AddParticipant` | applications/chats/repositories/chat_repository.py:148 | one participant row is added to the chat; no other chat, table or timestamp changes |
| `Store.Database.RemoveParticipant` | applications/chats/repositories/chat_repository.py:166 | one participant row is removed from the chat; no other chat, table or timestamp changes |
| `Store.Database.DeleteChat` | applications/chats/models/message.py:9-11 | deleting a chat removes it together with its messages and files |
| `Store.Database.NoRowsOfMissingChat` | applications/chats/models/file.py:14-16 | in a consistent store no message and no file refers to an absent chat, so after a delete the chat's message and file listings are empty |
| `Store.Database.DeleteUser` | applications/chats/models/message.py:13-15 | deleting a user removes their chats, the messages they sent, the files they uploaded and their participant rows |
| `Store.Database.CreateMessage` | applications/chats/models/message.py:16-18 | a new message gets a fresh key and both timestamps from the clock |
| `Repositories.ChatRepository.Create` | applications/chats/repositories/chat_repository.py:14-45 | the new chat has exactly the given columns; its participants are the listed users, none when the list is empty, so the creator is a member only if listed; the optional arguments default to an empty prompt, an active chat and no participants |
| `Repositories.ChatRepository.CreateWithDefaults` | applications/chats/repositories/chat_repository.py:18-20 | a call with only a title and a creator stores an empty prompt, an active chat and no participants, not even the creator |
| `Repositories.ChatRepository.GetById` | applications/chats/repositories/chat_repository.py:47-57 | the chat stored under the id, or none exactly when there is none |
| `Repositories.ChatRepository.GetActiveChats` | applications/chats/repositories/chat_repository.py:59-66 | exactly the stored active chats, each once, most recently updated first |
| `Repositories.ChatRepository.GetUserChats` | applications/chats/repositories/chat_repository.py:68-80 | a chat is in the result exactly when the user is its creator or a participant; no duplicates |
| `Repositories.ChatRepository.GetRecentChats` | applications/chats/repositories/chat_repository.py:82-92 | at most `limit` stored chats, each once, newest first, and no chat left out is newer than one kept; a chat is left out only when the limit is reached; a negative limit is refused |
| `Repositories.ChatRepository.DefaultRecentChats` | applications/chats/repositories/chat_repository.py:82 | without an argument the limit is 10: never an error, at most ten chats, and a chat is left out only when ten are returned |
| `Repositories.AssignGiven` | applications/chats/repositories/chat_repository.py:117-126 | each given value replaces its column and names it among the fields to write; no other column changes or is named |
| `Repositories.ChatRepository.UpdateChat` | applications/chats/repositories/chat_repository.py:94-131 | exactly the given columns change, the timestamps and every other chat stay, nothing is written when no column is given, and an absent id gives none |
| `Repositories.ChatRepository.AddParticipant` | applications/chats/repositories/chat_repository.py:133-149 | the user becomes a participant and nothing else changes; an absent chat gives none and an unchanged store |
| `Repositories.ChatRepository.RemoveParticipant` | applications/chats/repositories/chat_repository.py:151-167 | the user is no longer a participant and nothing else changes; an absent chat gives none and an unchanged store |
| `Repositories.ChatRepository.DeleteChat` | applications/chats/repositories/chat_repository.py:169-184 | true exactly when the chat existed, and then it is gone together with its messages and files; false leaves the store unchanged |
| `Repositories.ChatRepository.SearchChats` | applications/chats/repositories/chat_repository.py:186-196 | exactly the stored chats whose title contains the query, ignoring case, each once |
| `ChatSerializers.Apply` | applications/chats/serializers/chat_serializer.py:46 | one `setattr` changes exactly the named column to the given value |
| `ChatSerializers.ApplyAll` | applications/chats/serializers/chat_serializer.py:45-46 | the loop of assignments changes at most the title, the prompt and the active flag |
| `ChatSerializers.ApplyAllAssignsGiven` | applications/chats/serializers/chat_serializer.py:45-46 | the attribute loop assigns exactly the supplied attributes (the last value should one repeat) and leaves every other field as it was |
| `ChatSerializers.Validate` | applications/chats/models/chat.py:9-10 | data is accepted exactly when, once stripped, every supplied title fits the 255-character bound and no title or prompt holds a NUL character; a refusal reports exactly the errors of the supplied values, and at least one; the accepted data keeps the participant ids and the order and keys of the attributes, with each title and prompt stripped |
| `ChatSerializers.ErrorsOf` | applications/chats/models/chat.py:9-10 | a stripped value is refused for a title over the bound and for a NUL in a title or a prompt, each failing check reported; nothing else is reported |
| `ChatSerializers.AllErrors` | applications/chats/models/chat.py:9-10 | the errors of all supplied values together: an error is reported exactly when some value has it, and none exactly when every value is accepted |
| `ChatSerializers.ValidatedTitlesFit` | applications/chats/models/chat.py:9 | every title in the validated data fits the bound, holds no NUL and has no surrounding whitespace |
| `ChatSerializers.ValidateIdempotent` | applications/chats/models/chat.py:9-10 | validating validated data again accepts it unchanged |
| `ChatSerializers.PaddedTitleAccepted` | applications/chats/models/chat.py:9 | a fitting title with a trailing space is handed on without the space, and is accepted exactly when it holds no NUL |
| `ChatSerializers.GivenTitleOfTrimmed` | applications/chats/models/chat.py:9 | the title the validated data supplies is the stripped form of the title the payload supplies last |
| `ChatSerializers.ValidatedTitleFits` | applications/chats/models/chat.py:9 | after validation the title that `create` stores fits the bound, and is the stripped supplied title or the empty default |
| `ChatSerializers.Keys` | applications/chats/serializers/chat_serializer.py:34-37 | the keys of the validated data are exactly the supplied attributes' keys, plus `participant_ids` when it is supplied; never `created_by` |
| `ChatSerializers.CreateCallOnValidatedData` | applications/chats/serializers/chat_serializer.py:36-38 | data straight from validation makes the create call go through |
| `ChatSerializers.CreateCallKeywords` | applications/chats/serializers/chat_serializer.py:36-38 | the create call fails exactly when the unpacked data already holds `created_by` |
| `ChatSerializers.Create` | applications/chats/serializers/chat_serializer.py:34-41 | the creator is the requester; the supplied columns override the defaults; participants are set only from a non-empty id list, and the chat stays without participants when an id is unknown |
| `ChatSerializers.Update` | applications/chats/serializers/chat_serializer.py:43-51 | supplied attributes change and the others stay; `updated_at` is refreshed; participants are unchanged without `participant_ids` and become exactly that set, even when empty, with it |
| `ChatViews.GetQueryset` | applications/chats/views/chat_view.py:38-42 | the requester sees a chat exactly when they created it or take part in it, each once |
| `ChatViews.QuerysetIsUserChats` | applications/chats/views/chat_view.py:39-42 | the endpoint's own filter and the repository's `get_user_chats` return the same sequence, which lists exactly the chats of `created_by_user` together with those of `with_participant` |
| `ChatViews.PerformCreateAsWritten` | applications/chats/views/chat_view.py:44-45 | the create call with `created_by` merged into the data fails with a repeated `created_by` keyword |
| `ChatViews.PerformCreateAsWrittenAlwaysFails` | applications/chats/views/chat_view.py:44-45 | as written, every chat creation passes `created_by` twice and fails, while the serializer alone would not |
| `ChatViews.PerformCreate` | applications/chats/views/chat_view.py:44-45 | the created chat belongs to the requester and is in their queryset |
| `ChatViews.ParticipantResponse` | applications/chats/views/chat_view.py:78-89 | a missing or zero id gives 400 before anything else, then an unknown user gives 404, then an unknown chat gives 404, else 200 |
| `ChatViews.AddParticipant` | applications/chats/views/chat_view.py:78-89 | answers as ordered above; only on 200 does the store change, and then the user is a participant |
| `ChatViews.RemoveParticipant` | applications/chats/views/chat_view.py:122-133 | answers as ordered above; only on 200 does the store change, and then the user is not a participant |
| `ChatViews.AnyUserCanJoinUnseenChat` | applications/chats/views/chat_view.py:84 | the chat is resolved by id alone, so a user can add themselves to a chat outside their queryset |
| `MessageViews.GetQueryset` | applications/chats/views/message_view.py:40-44 | a message is listed exactly when it belongs to the URL chat and the requester is a participant of that chat; each once, oldest first |
| `MessageViews.CreatorAloneSeesNoMessages` | applications/chats/views/message_view.py:42-44 | a creator who is not a participant sees none of the chat's messages |
| `MessageViews.PerformCreate` | applications/chats/views/message_view.py:46-49 | 404 and no new message unless the chat exists with the requester as participant; else a new message in the URL chat, sent by the requester, visible to them |
| `MessageViews.PerformCreateAsWritten` | applications/chats/views/message_view.py:46-49 | as written, 404 unless the URL chat has the requester as participant; then 500 when the payload's `chat_id` names no chat; else the message is stored in the payload's chat, and when that is not the URL chat it is not listed under the URL chat |
| `MessageViews.PostedIntoForeignChat` | applications/chats/serializers/message_serializer.py:8 | a message stored in a chat other than the URL chat, one the sender does not belong to, is listed neither under the URL chat nor under its own chat for the sender |
| `MessageViews.Context` | applications/chats/views/message_view.py:76-83 | 400 when the parameter is missing or empty, the framework's 500 error page when it is not an integer, otherwise exactly the visible messages with that context index, as a subsequence of the list result |
| `MessageViews.ContextOfWrittenIndex` | applications/chats/views/message_view.py:81 | an index written in decimal finds exactly the visible messages with that index |
| `Text.ParseInt` | applications/chats/views/message_view.py:81 | a value exactly when the text is an optional '+' or '-' followed by ASCII digits; the value is the digits' value, negated under '-' |
| `Text.ParseIntRoundTrip` | applications/chats/views/message_view.py:81 | parsing the decimal rendering of an integer gives the integer back |
| `FileViews.GetQueryset` | applications/chats/views/file_view.py:40-44 | a file is listed exactly when it belongs to the URL chat and the requester is a participant of that chat; each once, newest first |
| `FileViews.StoredRowIsVisible` | applications/chats/views/file_view.py:40-44 | a stored file of the URL chat is listed for every participant of that chat |
| `FileViews.PerformCreate` | applications/chats/views/file_view.py:46-49 | 404 and no new file unless the chat exists with the requester as participant; then 400 and no new file when the upload's name has no valid form; else the upload is stored in the URL chat, by the requester, with its handle committed under the storage's name, the name from the upload, and type and size from the upload, and it is listed for the requester |
| `FileViews.ContentDisposition` | applications/chats/views/file_view.py:70-71 | the header is `attachment; filename="` followed by the file name and a closing quote |
| `FileViews.DispositionOkIffNameOk` | applications/chats/views/file_view.py:69-71 | the quoted disposition contains a line break exactly when the file name does |
| `Http.Rendered` | applications/chats/views/file_view.py:69-75 | the JSON renderer sets `Content-Type` to its media type when there is content and removes it when there is none; status, body and every other header are kept |
| `Http.NotFound` | applications/chats/views/file_view.py:48 | `get_object_or_404` answers 404 with "No <Model> matches the given query." |
| `FileViews.AttachmentRendered` | applications/chats/views/file_view.py:69-75 | rendering the empty download response drops the `Content-Type` the endpoint set and keeps the other two headers |
| `FileViews.Download` | applications/chats/views/file_view.py:65-79 | 404 unless the file is visible to the requester; 500 when the name or the type holds a line break; otherwise 200 with exactly the disposition, type and no-buffering headers and no content, of which the client receives the disposition and no-buffering headers only |

## Left out

- Django's ORM, SQL and transactions are replaced by maps in one sequential store. Concurrent requests are not modelled.
- Authentication is not modelled; the requester is a given user id. The schema decorators are not modelled either.
- Admin registration and the sample-data command are not modelled. Both are administrative glue: the command draws random data and wall-clock times.
- Routing is not modelled: the message and file endpoints take the URL chat as a parameter. The router in `urls.py` registers them without a `chat_pk` segment, and that is not part of this model.
- Blob storage, content-type detection and file bytes are not modelled; a stored file is a handle record (name, content type, size, committed).
- The storage backend renames a file on a name collision, and also when the path is longer than the file field's `max_length` of 100 characters: it cuts the root of the final component and appends '_' and 7 random characters, and it refuses the upload (`SuspiciousFileOperation`, a 400) when the cut leaves no root. The model does neither, so a committed name is always the one `Storage.GenerateFilename` makes of the upload path. For example, "a"*91 + ".txt" in chat 1 is committed by the model as the 108-character "chat_files/1/aaa…a.txt", and "a." + "b"*95 is accepted where the storage refuses it. This affects `FileModel.Commit`, `FileModel.CommitPlainName`, `FileModel.CommitAgrees`, `FileModel.SaveTwice`, `FileModel.SaveTwiceKeepsValidName`, `FileModel.SecondSaveRenames`, `FileObjects.FileInstance.CommitFile`, `FileObjects.FileInstance.PreSave`, `FileObjects.FileInstance.Save` and `FileViews.PerformCreate`, each listed below.
- `FileModel.Commit`: the committed name is `Storage.GenerateFilename` of the upload path even when that path exceeds 100 characters; the storage's length rename and its refusal of a name the cut empties are not modelled.
- `FileModel.CommitPlainName`: the path "chat_files/<chat id>/<valid form>" holds only while it is at most 100 characters long; a longer one is renamed by the storage with a random suffix, which is not modelled.
- `FileModel.CommitAgrees`: the agreement of the derived name's valid form with the committed name's final component holds only for paths of at most 100 characters; after a length rename the committed component carries the storage's cut root and random suffix.
- `FileModel.SaveTwice`: the name a second save derives is the valid form of the first save's name only for paths of at most 100 characters; after a length rename it is the renamed component.
- `FileModel.SaveTwiceKeepsValidName`: a valid name is derived unchanged by both saves only when the storage keeps the committed name. A second upload of "report.pdf" into chat 1 collides with "chat_files/1/report.pdf" and is stored as "chat_files/1/report_<7 random characters>.pdf", and a path over 100 characters is cut and suffixed; a re-save then derives the renamed component.
- `FileObjects.FileInstance.CommitFile`: the handle takes the name `FileModel.Commit` gives; the storage's collision rename and its length rename over 100 characters, which replace that name with one carrying a random suffix, are not modelled.
- `FileModel.SecondSaveRenames`: the stated committed path and second-save name hold only when "chat_files/<chat id>/" plus the joined words is at most 100 characters; longer words are renamed by the storage.
- `FileObjects.FileInstance.PreSave`: the stated name agreement after the first commit holds only for paths of at most 100 characters, for the reason given under `FileModel.CommitAgrees`.
- `Storage.GetValidFilename`: only ASCII whitespace is stripped; `str.strip` also strips other Unicode spaces, so the model maps ". \u00a0" to "._" where Python strips it to "." and refuses it. Only ASCII letters and digits count as word characters. Python's `\w` also keeps the letters and digits of other scripts, which the model drops.
- `Text.Dirname`: gives what precedes the last '/'. `posixpath.dirname` also strips trailing slashes from that head unless it is all slashes: it maps "a//b" to "a" and "/b" to "/", where the model gives "a/" and "". The two agree on the "chat_files/<chat id>/<name>" paths the model builds (`Text.DirnameAfterSlash`).
- `Storage.GenerateFilename`: backslashes are not turned into '/', and the path is not normalised, so `..` components and the storage's check that a path stays inside its root are not modelled.
- The name an upload arrives with is taken as given. The framework's upload parsing (which keeps only the final component and truncates it to 255 characters) is not modelled. Neither are the serializer's file-field checks (an empty file, a name over 100 characters).
- `FileObjects.FileInstance.Save`: the stored name's agreement with its committed handle is stated for the first save of an upload only, and holds only for paths of at most 100 characters (the storage's length rename is not modelled). What a re-save records is `FileModel.SaveTwice`. The store's invariant covers a file row's type and size, not its name.
- `ChatSerializers.Validate`: DRF's `CharField` also refuses a value holding a lone surrogate code point (`ProhibitSurrogateCharactersValidator`), which a JSON title or prompt such as "\ud800" can carry. A Dafny `char` cannot hold a surrogate, so model strings exclude those values, and the model's acceptance "exactly when there is no NUL" holds only over strings without surrogates.
- `ChatSerializers.ErrorsOf`: does not report the surrogate error of DRF's `ProhibitSurrogateCharactersValidator`, because a model string cannot hold a surrogate (see `ChatSerializers.Validate`).
- `ChatSerializers.PaddedTitleAccepted`: "accepted exactly when it holds no NUL" holds over strings without lone surrogates only; DRF also refuses a title holding one (see `ChatSerializers.Validate`).
- `ChatSerializers.Validate`: only ASCII whitespace is stripped (`str.strip` also strips other Unicode spaces). The fields' type checks and unknown keys are not modelled, and `prompt` has no length bound. A refusal is modelled as the set of errors found, without DRF's per-field message texts.
- The database's integer range is not modelled. `context_index` and `file_size` are `IntegerField`s, 32-bit on the usual backends; the model lets them be any integer.
- The database's own length limits are not modelled. The 500- and 100-character bounds of `file_name` and `file_type` are not enforced. `update_chat` writes a title without validation, as the repository does.
- `FileViews.PerformCreate`: an upload whose path exceeds 100 characters is stored unchanged with 201, where the storage renames it or, when the cut leaves no root, refuses it with 400. Its 201 outcome rests on the corrected `FileObjects.FileInstance.Save`. As written, every upload raises `AttributeError` on `content_type` and the request ends in a 500; that is `FileModel.SaveAsWrittenAlwaysRaises`, listed under Findings.
- `MessageViews.PerformCreate`: stores the message in the URL chat, as evidently intended. The code as written stores it in the chat the payload's `chat_id` names; that is `MessageViews.PerformCreateAsWritten`, listed under Findings.
- Payload validation of messages is not modelled: a payload without `chat_id` or `content` is answered with 400 by the serializer before `perform_create` runs.
- A new file's `file_size` is `None` until `save` derives the size; the model starts it at 0. It is overwritten either way.
- Non-numeric URL keys are not modelled; a chat key is an integer.
- `ChatViews.ParticipantResponse`: `user_id` is modelled as an optional integer. JSON strings and booleans, which are also falsy or convertible, are left out.
- `MessageViews.Context`: the parameter is parsed as an optional sign followed by ASCII digits. Python's `int` also accepts surrounding whitespace, `_` separators and non-ASCII digits.
- `Text.IContains`: case-insensitive matching lower-cases ASCII letters only. Unicode case folding is not modelled.
- `FileViews.Download`: only the JSON renderer is modelled; content negotiation, which can pick the browsable-API renderer and its media type, is not. The 500 answer carries a fixed message in place of the exception text. Header encoding is not modelled: the response encodes non-Latin-1 values, and only line breaks are refused.
- The exact text of not-found answers depends on the framework version. The model uses "No <Model> matches the given query."

## Findings

| source | as written | input that shows it | evidently intended | confidence | as-written member | corrected member |
|---|---|---|---|---|---|---|
| applications/chats/views/chat_view.py:44-45 | `perform_create` passes `created_by` to `serializer.save`, which merges it into the validated data. `ChatSerializer.create` then calls `Chat.objects.create` with its own `created_by=` next to that unpacked data, so Python raises `TypeError` for a repeated keyword | any chat creation, e.g. a POST with `{"title": "Sprint Planning"}` | the chat is created once, with the requester as `created_by` | not executed | `ChatViews.PerformCreateAsWrittenAlwaysFails` | `ChatViews.PerformCreate` |
| applications/chats/models/file.py:36 | `File.save` reads `self.file.content_type`. At that point `self.file` is the field's `FieldFile`, which has a name and a size but no `content_type` (the uploaded file's type is on the wrapped object), so the save raises `AttributeError` | any upload, e.g. a POST of `report.pdf` to a chat's files | `file_type` is the upload's content type | not executed | `FileModel.SaveAsWrittenAlwaysRaises` | `FileObjects.FileInstance.Save` |
| applications/chats/serializers/message_serializer.py:8 | `chat_id` is a required write-only field, so it stays in the validated data. `perform_create` adds `chat=` and the model's constructor assigns the leftover `chat_id` after it, so the message is stored in the payload's chat, not the URL chat | a participant of chat 1 posts `{"chat_id": 2, "content": "hi"}` to chat 1's messages: the message lands in chat 2, whether or not they belong to it | the message is stored in the URL chat | not executed | `MessageViews.PerformCreateAsWritten` | `MessageViews.PerformCreate` |
