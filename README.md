# Voice assistant API — a Dafny model of its core

The voice assistant is a Spring Boot service. It takes recorded speech and runs it through speech recognition (ASR), a large language model (LLM) and speech synthesis (TTS). It answers with the recognised text, the reply and a link to the synthesised audio. A reply may carry a device-control marker, `[DEVICE_CTL] room=<room> action=on|off`, which switches the smart-home devices of a room. Around that sits a small retrieval store (RAG, retrieval-augmented generation):
- documents with embeddings, held in memory or mirrored into MySQL;
- a top-k similarity search;
- a prompt context built from the search hits;
- documents generated from the device table and from the chat log.

This project models that core in Dafny and proves what the code promises. It covers:
- the WAV segment merger and the little-endian size fields it patches;
- the 500-unit text chunking of online synthesis;
- the hand-written recogniser for the device-control pattern and the reply stripper;
- the device dispatch loop and the request `sendControl` chooses;
- both vector-store backends: an in-memory map, and a cache mirroring a repository table;
- the retrieval service (ingestion, search, RAG context, device sync);
- the document builders for devices and chat entries, and the embedding response converters;
- the request-level logic of the four controllers (voice, vector, device, TTS file download).

One module per source concern, all files directly in this directory:

| file | module | models |
|---|---|---|
| java_lang.dfy | JavaLang | `Option`, `String.trim`, `String.isBlank`, ASCII case folding, joining |
| wav.dfy | Wav | `mergeWavSegments`, `writeLittleEndianInt`, `synthesizeOnlineToBytes` |
| pipeline.dfy | Pipeline | `VoicePipelineService`: text shaping, prompts, `process`, `synthesize` |
| devices.dfy | Devices | the device row and the three repository queries |
| device_control.dfy | DeviceControl | `DeviceControlService` |
| vector_types.dfy | VectorTypes | `VectorDocument`, `SearchResult`, metadata maps |
| ranking.dfy | Ranking | the top-k search both stores share |
| memory_store.dfy | MemoryStore | `InMemoryVectorStore` |
| mysql_store.dfy | MysqlStore | `MysqlVectorStore` (cache + table) |
| embedding.dfy | Embedding | `EmbeddingResponse`, `OllamaEmbedResponse`, the embedding guard |
| vector_service.dfy | VectorService | `VectorStoreService` |
| device_text.dfy | DeviceText | `DeviceToVectorHelper` |
| chat_history.dfy | ChatHistory | `ChatHistoryService.logChat` |
| voice_controller.dfy | VoiceApi | `VoiceUploadController` |
| vector_controller.dfy | VectorApi | `VectorController` |
| device_controller.dfy | DeviceApi | `DeviceController` |
| tts_resource.dfy | TtsResource | `TtsResourceController` |

Code that changes state in the source is modelled as Dafny classes:
- the two stores, the retrieval service, the chat log, the pipeline service and the controllers;
- their methods are proved against specification functions (`Put`, `PutAll`, `WithoutSource`, `IsTopK`, `Outcome`, `QwenReply`, …).

Code that only computes is modelled as functions and lemmas. Remote calls, process runs and file writes are parameters: a function for the remote service, or the outcome of the step (`Stages`, `AudioIo`).

Modelling choices:
- Java strings are sequences of UTF-16 units.
- Java's three whitespace notions are kept apart: `trim` (units up to U+0020), `String.isBlank` (`Character.isWhitespace`) and the regex class `\s`.
- The similarity score is an uninterpreted function of the query and the document.
- Map iteration order is left open.

## Model

| member | source | states |
|---|---|---|
| JavaLang.Trim | src/main/java/com/wshg/voice/controller/VoiceUploadController.java:387 | `trim` returns a slice of its input with every dropped unit at most U+0020 and no such unit at either end of the result |
| JavaLang.TrimEmptyIffAllTrimSpace | src/main/java/com/wshg/voice/controller/VoiceUploadController.java:387 | `s.trim().isEmpty()` holds exactly when every unit of `s` is at most U+0020 |
| JavaLang.JoinContains | src/main/java/com/wshg/voice/service/VectorStoreService.java:107-109 | every part occurs in the joined string |
| JavaLang.JoinUrl | src/main/java/com/wshg/voice/service/VoicePipelineService.java:138 | the audio link starts with the base, ends with "/" + rest, and adds a '/' only when the base lacks one |
| Wav.Encode32LE | src/main/java/com/wshg/voice/service/VoicePipelineService.java:525-530 | the writer stores exactly four bytes |
| Wav.Decode32LE | src/main/java/com/wshg/voice/service/VoicePipelineService.java:514-517 | a WAV reader's value of four bytes is an unsigned 32-bit number |
| Wav.DecodeEncode | src/main/java/com/wshg/voice/service/VoicePipelineService.java:525-530 | reading back what the writer stored yields the value modulo 2^32 |
| Wav.WriteLittleEndianInt | src/main/java/com/wshg/voice/service/VoicePipelineService.java:525-530 | the four bytes at the offset become the encoding of the value; every other byte of the buffer is unchanged |
| Wav.Merged | src/main/java/com/wshg/voice/service/VoicePipelineService.java:495-523 | the merge is null exactly for a null or empty list, and is never shorter than the first segment |
| Wav.MergeWavSegments | src/main/java/com/wshg/voice/service/VoicePipelineService.java:495-523 | the buffer-and-patch loop yields exactly the merge |
| Wav.MergedLayout | src/main/java/com/wshg/voice/service/VoicePipelineService.java:503-517 | with a first segment over 44 bytes the result is its header with sizes patched, its payload, then the payload of every later segment over 44 bytes in order; bytes 4..7 hold length − 8 and bytes 40..43 hold length − 44 |
| Wav.MergedDataSize | src/main/java/com/wshg/voice/service/VoicePipelineService.java:508-517 | n segments of p payload bytes each give a data-size field of n·p |
| Wav.ChunksConcat | src/main/java/com/wshg/voice/service/VoicePipelineService.java:434-443 | the 500-unit pieces put back together are the text |
| Wav.ChunksBounded | src/main/java/com/wshg/voice/service/VoicePipelineService.java:435-437 | every piece holds between 1 and 500 units |
| Wav.ChunksCount | src/main/java/com/wshg/voice/service/VoicePipelineService.java:435-443 | there are ceil(length / 500) pieces |
| Wav.CallTtsOnce | src/main/java/com/wshg/voice/service/VoicePipelineService.java:453-490 | a piece yields audio only when it and the key are non-blank, and the audio is never empty |
| Wav.Synthesized | src/main/java/com/wshg/voice/service/VoicePipelineService.java:438-441 | failed pieces are dropped: every kept segment is non-empty and there are no more segments than pieces |
| Wav.SynthesizeOnlineToBytes | src/main/java/com/wshg/voice/service/VoicePipelineService.java:428-448 | the online speech of the text (null for a blank text or key, or when every piece fails) and never an empty array |
| Wav.SynthesizePieces | src/main/java/com/wshg/voice/service/VoicePipelineService.java:432-443 | the chunking loop keeps, in order, the audio of every successful request over the pieces of at most 500 units that `Chunks` cuts the text into |
| Devices.FindByEnabledTrue | src/main/java/com/wshg/voice/repository/SmartHomeDeviceRepository.java:13 | exactly the rows whose `enabled` is TRUE, never more rows than the table |
| Devices.FindByRoomAndEnabledTrue | src/main/java/com/wshg/voice/repository/SmartHomeDeviceRepository.java:11 | exactly the enabled rows whose room equals the argument |
| Devices.FindByDeviceId | src/main/java/com/wshg/voice/repository/SmartHomeDeviceRepository.java:15 | the row carrying that device id, or none when no row carries it |
| Devices.RoomSelectionWithinEnabled | src/main/java/com/wshg/voice/repository/SmartHomeDeviceRepository.java:11-13 | a room selection is the room filter applied to the enabled selection, order kept |
| DeviceControl.FindFrom | src/main/java/com/wshg/voice/service/DeviceControlService.java:38-39 | `find` returns the first position from which the pattern matches, or reports that none matches |
| DeviceControl.ParseIntent | src/main/java/com/wshg/voice/service/DeviceControlService.java:36-41 | an intent exactly when the reply is non-blank and holds a match; it is the first match's room group, trimmed, and whether its action is "on" ignoring case |
| DeviceControl.StripDeviceControlLine | src/main/java/com/wshg/voice/service/DeviceControlService.java:46-49 | the stripped reply is no longer than the reply and has no unit at most U+0020 at either end (what it removes: ParseAndStripMarker, CollapseBlankLine, StripAnswerThenMarker) |
| DeviceControl.CollapseIdentity | src/main/java/com/wshg/voice/service/DeviceControlService.java:48 | text without a newline–whitespace–newline run is left alone by the collapse |
| DeviceControl.StripWithoutMarkerIsTrim | src/main/java/com/wshg/voice/service/DeviceControlService.java:36-49 | on text with no '[' and no blank-line run there is no intent, and stripping is `trim` |
| DeviceControl.MarkerRecognised | src/main/java/com/wshg/voice/service/DeviceControlService.java:28-31 | every well-formed marker is matched at its position: any case of the keywords, optional space before `room=`, required space before `action=`; the match gives its room token and on/off |
| DeviceControl.MatchAtSound | src/main/java/com/wshg/voice/service/DeviceControlService.java:28-31 | whatever the recogniser matches is a well-formed marker: the matched text splits into tag, optional space, `room=`, a room token, required space, `action=` and on/off in any case, and the reported room and action are that marker's |
| DeviceControl.ParseIntentSound | src/main/java/com/wshg/voice/service/DeviceControlService.java:36-41 | every intent comes from a well-formed marker occurring in the reply, with the trimmed room and the on/off of its action |
| DeviceControl.ParseAndStripMarker | src/main/java/com/wshg/voice/service/DeviceControlService.java:36-49 | for a marker inside text without '[', the intent is the trimmed room and the action, removing markers leaves exactly the surrounding text, and the stripped reply is that text collapsed and trimmed |
| DeviceControl.CollapseBlankLine | src/main/java/com/wshg/voice/service/DeviceControlService.java:48 | a newline, a whitespace run and a newline after a line collapse to one newline; a final line without newlines is kept as it is |
| DeviceControl.CollapseCopies | src/main/java/com/wshg/voice/service/DeviceControlService.java:48 | the collapse copies a stretch without newlines unchanged |
| DeviceControl.StripAnswerThenMarker | src/main/java/com/wshg/voice/service/DeviceControlService.java:36-49 | a one-line answer followed by a marker line gives the marker's intent, and the spoken text is exactly the answer |
| DeviceControl.TrimOneTrailing | src/main/java/com/wshg/voice/service/DeviceControlService.java:48 | trimming a trimmed line with one whitespace unit appended gives the line back |
| DeviceControl.NoMarkerIn | src/main/java/com/wshg/voice/service/DeviceControlService.java:38-39 | a tail without '[' holds no match |
| DeviceControl.StripTrailingSlash | src/main/java/com/wshg/voice/service/DeviceControlService.java:93 | `replaceAll("/$", "")` removes at most one unit, and removes the final '/' |
| DeviceControl.StripTrailingSlashRemovesSlashBeforeEnd | src/main/java/com/wshg/voice/service/DeviceControlService.java:93 | what it removes is a '/' where `$` matches (also before a final line terminator); when nothing is removed, no '/' stands there |
| DeviceControl.ControlTarget | src/main/java/com/wshg/voice/service/DeviceControlService.java:83-124 | a request exists exactly when the connection URL and the chosen on/off command are non-blank |
| DeviceControl.JoinedWithOneSlash | src/main/java/com/wshg/voice/service/DeviceControlService.java:93-118 | a URL ending in '/' and a command starting with '/' join with one '/', for GET and for the empty POST; a GET command starting with "http" is used as is |
| DeviceControl.SendControl | src/main/java/com/wshg/voice/service/DeviceControlService.java:83-129 | success needs a non-blank connection URL and command |
| DeviceControl.CountAccepted | src/main/java/com/wshg/voice/service/DeviceControlService.java:71-74 | the success count never exceeds the number of devices |
| DeviceControl.ExecuteByRoom | src/main/java/com/wshg/voice/service/DeviceControlService.java:63-77 | the loop returns the number of addressed devices that accept the command, going on after failures |
| DeviceControl.CountAcceptedBounds | src/main/java/com/wshg/voice/service/DeviceControlService.java:68-76 | the count is 0 when the transport refuses everything, and the full number when it accepts everything and every device has a URL and a command |
| DeviceControl.TargetsSelectEnabledRoom | src/main/java/com/wshg/voice/service/DeviceControlService.java:64-66 | "all" in any case addresses every enabled device, any other room the enabled devices of that room |
| VectorTypes.Get | src/main/java/com/wshg/voice/store/InMemoryVectorStore.java:106-109 | a metadata lookup returns a value stored under the key, or null when the key is absent |
| VectorTypes.SourceColumn | src/main/java/com/wshg/voice/store/MysqlVectorStore.java:82-83 | the source column is present exactly when metadata holds a non-null "source", and it is that string when the source is a string |
| VectorTypes.SourceColumnOfNumber | src/main/java/com/wshg/voice/store/MysqlVectorStore.java:82-83 | a numeric source is written as its decimal text |
| VectorTypes.ColumnOfPlainSource | src/main/java/com/wshg/voice/store/MysqlVectorStore.java:82-83 | for a source name that does not read as a number, boolean or list, the column holds the name exactly when the "source" value is that string |
| Ranking.InsertDesc | src/main/java/com/wshg/voice/store/InMemoryVectorStore.java:133-134 | inserting keeps the list in non-increasing score order and adds exactly the one result |
| Ranking.SortDesc | src/main/java/com/wshg/voice/store/InMemoryVectorStore.java:133-134 | the sort gives a non-increasing permutation of its input |
| Ranking.Search | src/main/java/com/wshg/voice/store/InMemoryVectorStore.java:122-137 | null query: no results; otherwise the results are the top k candidates (documents whose embedding has the query's length), each once, best first, min(k, candidates) of them, and every left-out candidate scores no higher than every result |
| Ranking.TopOfSorted | src/main/java/com/wshg/voice/store/InMemoryVectorStore.java:133-136 | the first k of the sorted candidates form a valid top-k |
| Ranking.LeftOutScoresLower | src/main/java/com/wshg/voice/store/InMemoryVectorStore.java:133-136 | a result cut off by the limit scores no higher than any kept one |
| MemoryStore.Put | src/main/java/com/wshg/voice/store/InMemoryVectorStore.java:66-70 | a document with an id replaces that key only; a null document or id changes nothing |
| MemoryStore.PutAll | src/main/java/com/wshg/voice/store/InMemoryVectorStore.java:73-79 | putting a list keeps every entry filed under its own id |
| MemoryStore.PutAllLastWins | src/main/java/com/wshg/voice/store/InMemoryVectorStore.java:73-79 | after a list, an id holds the last document of the list with that id, or its old entry if the list has none |
| MemoryStore.WithoutSource | src/main/java/com/wshg/voice/store/InMemoryVectorStore.java:102-114 | exactly the documents whose metadata "source" equals the string are removed; the rest are kept unchanged |
| MemoryStore.RemovedCount | src/main/java/com/wshg/voice/store/InMemoryVectorStore.java:104-111 | the removed count is the number of documents filed under that source |
| MemoryStore.InMemoryVectorStore.LoadFromFile | src/main/java/com/wshg/voice/store/InMemoryVectorStore.java:40-44 | loading puts the listed documents in order, skipping null entries and ids |
| MemoryStore.InMemoryVectorStore.Add | src/main/java/com/wshg/voice/store/InMemoryVectorStore.java:66-70 | the map becomes `Put` of the old map |
| MemoryStore.InMemoryVectorStore.AddAll | src/main/java/com/wshg/voice/store/InMemoryVectorStore.java:73-79 | a null list changes nothing; otherwise the map becomes `PutAll` of the old map |
| MemoryStore.InMemoryVectorStore.Remove | src/main/java/com/wshg/voice/store/InMemoryVectorStore.java:82-85 | only that key goes |
| MemoryStore.InMemoryVectorStore.Clear | src/main/java/com/wshg/voice/store/InMemoryVectorStore.java:91-96 | the map ends up empty |
| MemoryStore.InMemoryVectorStore.RemoveBySource | src/main/java/com/wshg/voice/store/InMemoryVectorStore.java:102-114 | a null source changes nothing; otherwise the map becomes `WithoutSource` of the old map |
| MemoryStore.InMemoryVectorStore.Size | src/main/java/com/wshg/voice/store/InMemoryVectorStore.java:117-119 | the number of distinct ids |
| MemoryStore.InMemoryVectorStore.Search | src/main/java/com/wshg/voice/store/InMemoryVectorStore.java:122-137 | the results are a top-k of the map for the query |
| MysqlStore.EmbeddingOf | src/main/java/com/wshg/voice/store/MysqlVectorStore.java:46-57 | an embedding comes back only from a parsed, non-empty list |
| MysqlStore.DocumentOf | src/main/java/com/wshg/voice/store/MysqlVectorStore.java:38-44 | a row loads exactly when its embedding parses non-empty, with its id, text and parsed metadata (null when unparsable) |
| MysqlStore.RowOf | src/main/java/com/wshg/voice/store/MysqlVectorStore.java:68-92 | a row exists exactly for a document with an id, and its source column is the source of the metadata |
| MysqlStore.ReloadedDocument | src/main/java/com/wshg/voice/store/MysqlVectorStore.java:38-92 | a saved document comes back exactly when its embedding is non-empty, unchanged except that empty metadata returns as null |
| MysqlStore.LoadedFrom | src/main/java/com/wshg/voice/store/MysqlVectorStore.java:30-36 | the loaded documents are filed under their ids and come from table rows |
| MysqlStore.LoadKeepsMirror | src/main/java/com/wshg/voice/store/MysqlVectorStore.java:30-36 | after loading, every cached id is a table row |
| MysqlStore.SaveAll | src/main/java/com/wshg/voice/store/MysqlVectorStore.java:105-110 | saving a list keeps rows filed under their ids and removes none |
| MysqlStore.SaveAllMirrors | src/main/java/com/wshg/voice/store/MysqlVectorStore.java:105-110 | after `addAll` every cached id is still a table row |
| MysqlStore.EvictsWhatMemoryRemoves | src/main/java/com/wshg/voice/store/MysqlVectorStore.java:119-128 | where cache and table agree on sources, the eviction removes every document the in-memory store would remove |
| MysqlStore.EvictsExactlyWhatMemoryRemoves | src/main/java/com/wshg/voice/store/MysqlVectorStore.java:119-128 | for such a plain source name, the cache eviction removes exactly what the in-memory removal removes |
| MysqlStore.MysqlVectorStore.LoadFromDb | src/main/java/com/wshg/voice/store/MysqlVectorStore.java:30-36 | the loop adds every loadable row to the cache, and the table is unchanged |
| MysqlStore.MysqlVectorStore.Add | src/main/java/com/wshg/voice/store/MysqlVectorStore.java:95-102 | the row and the cache entry for the id are both set and nothing else changes; a null document or id changes nothing |
| MysqlStore.MysqlVectorStore.AddAll | src/main/java/com/wshg/voice/store/MysqlVectorStore.java:105-110 | the cache becomes `PutAll` and the table `SaveAll` of the list |
| MysqlStore.MysqlVectorStore.Remove | src/main/java/com/wshg/voice/store/MysqlVectorStore.java:113-116 | the id leaves both the cache and the table |
| MysqlStore.MysqlVectorStore.RemoveBySource | src/main/java/com/wshg/voice/store/MysqlVectorStore.java:119-128 | every id the table files under the source leaves both; a null source changes nothing |
| MysqlStore.MysqlVectorStore.Clear | src/main/java/com/wshg/voice/store/MysqlVectorStore.java:131-136 | both end up empty |
| MysqlStore.MysqlVectorStore.Size | src/main/java/com/wshg/voice/store/MysqlVectorStore.java:139-141 | the size is the cache's, not the table's |
| MysqlStore.MysqlVectorStore.Search | src/main/java/com/wshg/voice/store/MysqlVectorStore.java:144-156 | the results are a top-k of the cache for the query |
| Embedding.FirstEmbedding | src/main/java/com/wshg/voice/dto/EmbeddingResponse.java:27-36 | null exactly for null or empty data or a null first embedding; otherwise the first item's list |
| Embedding.AllEmbeddings | src/main/java/com/wshg/voice/dto/EmbeddingResponse.java:38-49 | one array per item in response order, an empty array for a null embedding |
| Embedding.FirstIsHeadOfAll | src/main/java/com/wshg/voice/dto/EmbeddingResponse.java:27-49 | the first embedding is the head of all embeddings (empty when it is null) |
| Embedding.OllamaFirstEmbedding | src/main/java/com/wshg/voice/dto/OllamaEmbedResponse.java:18-27 | null exactly for null or empty input or a null first list; otherwise that list |
| Embedding.OllamaAllEmbeddings | src/main/java/com/wshg/voice/dto/OllamaEmbedResponse.java:29-39 | one array per inner list in order, an empty array for a null list |
| Embedding.OllamaFirstIsHeadOfAll | src/main/java/com/wshg/voice/dto/OllamaEmbedResponse.java:18-39 | the first embedding is the head of all embeddings (empty when it is null) |
| Embedding.Embed | src/main/java/com/wshg/voice/service/EmbeddingService.java:36-82 | an embedding only for non-blank text, and online only with a non-blank key |
| Embedding.EmbedBatch | src/main/java/com/wshg/voice/service/EmbeddingService.java:47-105 | no embeddings for a null or empty list, or online without a key |
| DeviceText.BuildTextDefaults | src/main/java/com/wshg/voice/service/DeviceToVectorHelper.java:19-27 | a null room reads as "未知" and a null device id as ""; the device name never affects the text |
| DeviceText.BuildTextMentions | src/main/java/com/wshg/voice/service/DeviceToVectorHelper.java:23-26 | the text names the room five times, the device id twice and the control endpoint once |
| DeviceText.DeviceMetadataKeys | src/main/java/com/wshg/voice/service/DeviceToVectorHelper.java:33-48 | the ten keys, in insertion order, all distinct |
| DeviceText.DeviceMetadataSource | src/main/java/com/wshg/voice/service/DeviceToVectorHelper.java:40 | "source" is "device" |
| DeviceText.DeviceMetadataDefaults | src/main/java/com/wshg/voice/service/DeviceToVectorHelper.java:37-39 | roomId defaults to "" and deviceName to the device id |
| DeviceText.DeviceMetadataRoom | src/main/java/com/wshg/voice/service/DeviceToVectorHelper.java:35-36 | scene and room are the raw room, null included |
| DeviceText.DeviceMetadataSteps | src/main/java/com/wshg/voice/service/DeviceToVectorHelper.java:42-47 | the steps entry is a list of exactly four strings |
| DeviceText.DeviceDocFiledUnderDevice | src/main/java/com/wshg/voice/service/DeviceToVectorHelper.java:40 | every device document is removed by `removeBySource("device")` |
| VectorService.RemoveDashes | src/main/java/com/wshg/voice/service/VectorStoreService.java:49 | removing dashes never lengthens the text |
| VectorService.NewId | src/main/java/com/wshg/voice/service/VectorStoreService.java:49 | ids are at most 16 units |
| VectorService.UuidWithoutDashes | src/main/java/com/wshg/voice/service/VectorStoreService.java:49 | a UUID without its dashes is its five hex groups |
| VectorService.NewIdDigits | src/main/java/com/wshg/voice/service/VectorStoreService.java:49 | an id is the first three hex groups of its UUID: 16 hex digits |
| VectorService.VectorStoreService.IdsBetweenHex | src/main/java/com/wshg/voice/service/VectorStoreService.java:49 | every id drawn from the service's UUIDs is 16 hex digits |
| VectorService.Kept | src/main/java/com/wshg/voice/service/VectorStoreService.java:100-102 | the filter never lengthens the list |
| VectorService.KeptMembers | src/main/java/com/wshg/voice/service/VectorStoreService.java:100-102 | a result is kept exactly when its score is at least the threshold, the threshold included |
| VectorService.RagContextBelowThreshold | src/main/java/com/wshg/voice/service/VectorStoreService.java:103-106 | when every score is below the threshold the context is empty |
| VectorService.RagContextKeeps | src/main/java/com/wshg/voice/service/VectorStoreService.java:107-109 | every result at or above the threshold contributes its text to the context |
| VectorService.VectorStoreService.AddDocument | src/main/java/com/wshg/voice/service/VectorStoreService.java:42-54 | an id exactly when the text embeds; the id is 16 hex digits from the next UUID; then exactly one document (id, text, embedding, metadata) is added under it; otherwise nothing changes |
| VectorService.VectorStoreService.AddDocumentFailingInsert | src/main/java/com/wshg/voice/service/VectorStoreService.java:42-54 | a store insert that throws: it is attempted exactly when the text embeds, after the id is drawn, and no document changes |
| VectorService.VectorStoreService.AddDocuments | src/main/java/com/wshg/voice/service/VectorStoreService.java:59-73 | empty input adds nothing; otherwise text i is paired with embedding i for i below min(texts, embeddings), one fresh id each, every id 16 hex digits, and the ids are returned in order |
| VectorService.VectorStoreService.Search | src/main/java/com/wshg/voice/service/VectorStoreService.java:78-83 | no results when the query does not embed; otherwise a top-k of the store |
| VectorService.VectorStoreService.Count | src/main/java/com/wshg/voice/service/VectorStoreService.java:124-126 | the number of stored documents |
| VectorService.VectorStoreService.BuildRagContext | src/main/java/com/wshg/voice/service/VectorStoreService.java:89-112 | "" for a blank query, an empty store or a failed embedding; otherwise the threshold-filtered texts of the top-k, in search order, joined by blank lines; the context is `Retrieved` for the store |
| VectorService.VectorStoreService.Clear | src/main/java/com/wshg/voice/service/VectorStoreService.java:117-119 | the store ends up empty |
| VectorService.VectorStoreService.RemoveBySource | src/main/java/com/wshg/voice/service/VectorStoreService.java:131-133 | delegates to the backend's removal, removes every document the in-memory removal would, and for a plain source name with a consistent cache exactly those |
| VectorService.VectorStoreService.RemoveDeviceDocs | src/main/java/com/wshg/voice/service/VectorStoreService.java:147-148 | afterwards no "device" or "device_rule" document remains, and every other document is kept unchanged |
| VectorService.WithoutDeviceSources | src/main/java/com/wshg/voice/service/VectorStoreService.java:147-148 | removing "device" then "device_rule" removes exactly the device documents |
| VectorService.VectorStoreService.AddDeviceDocument | src/main/java/com/wshg/voice/service/VectorStoreService.java:153-155 | an embedded device text goes in under the next drawn id with the device's text, embedding and metadata; otherwise nothing changes |
| VectorService.VectorStoreService.AddRuleDocument | src/main/java/com/wshg/voice/service/VectorStoreService.java:157 | the rule document is stored under the next drawn id with its text, embedding and the "device_rule" source; otherwise nothing changes |
| VectorService.VectorStoreService.AddEnabledDevices | src/main/java/com/wshg/voice/service/VectorStoreService.java:149-156 | the store is the one `Filed` from the entries of the enabled devices, in table order, each written under the next drawn id when its text embeds; the count is the number written, at most one per enabled device, one drawn id each; every other document is unchanged |
| VectorService.VectorStoreService.AddNextDevice | src/main/java/com/wshg/voice/service/VectorStoreService.java:151-155 | a disabled device adds nothing; an enabled one files its entry after the earlier ones: one more document and one more drawn id exactly when its text embeds |
| VectorService.KeepsOutsidePut | src/main/java/com/wshg/voice/service/VectorStoreService.java:155-157 | one more write keeps every other document, its id joining the drawn ones |
| VectorService.VectorStoreService.SyncFromDevices | src/main/java/com/wshg/voice/service/VectorStoreService.java:145-160 | the count is the documents written (`SyncWrites`), between 0 and the enabled devices + 1, and equals the ids drawn; on a consistent store the result is exactly `SyncedDocs`: the store without its device documents, then each enabled device's document and the rule document under the ids drawn in turn (`Rebuilt`); every non-device document whose id was not redrawn survives unchanged |
| VectorService.VectorStoreService.EntriesHold | src/main/java/com/wshg/voice/service/VectorStoreService.java:149-152 | every enabled device of the table has its entry among those the sync files |
| VectorService.VectorStoreService.EntriesCount | src/main/java/com/wshg/voice/service/VectorStoreService.java:149-156 | one entry per enabled device, so at most one write each, and exactly one each when every enabled text embeds |
| VectorService.VectorStoreService.FiledSnoc | src/main/java/com/wshg/voice/service/VectorStoreService.java:153-157 | filing one more entry writes it under the id of the next UUID exactly when it embeds |
| VectorService.VectorStoreService.FiledHas | src/main/java/com/wshg/voice/service/VectorStoreService.java:153-157 | with distinct drawn ids, an entry that embeds is stored, text, embedding and metadata, under the id drawn for it |
| VectorService.VectorStoreService.FiledHasEach | src/main/java/com/wshg/voice/service/VectorStoreService.java:153-157 | with distinct drawn ids, every entry that embeds is in the store after filing |
| VectorService.VectorStoreService.FiledFrame | src/main/java/com/wshg/voice/service/VectorStoreService.java:153-157 | filing keeps every document outside the drawn ids, and every device document afterwards was there before or has a drawn id |
| VectorService.VectorStoreService.SyncedFrame | src/main/java/com/wshg/voice/service/VectorStoreService.java:145-160 | on a store without device documents, the sync keeps every document outside the drawn ids, and leaves only device documents under drawn ids, at most one per write |
| VectorService.VectorStoreService.SyncedHasDocuments | src/main/java/com/wshg/voice/service/VectorStoreService.java:145-160 | with distinct drawn ids, every enabled device whose text embeds has its document after the sync, and the rule document is under the last id drawn |
| VectorService.WritesBound | src/main/java/com/wshg/voice/service/VectorStoreService.java:153-157 | there are no more writes than entries, and exactly one per entry when every entry embeds |
| ChatHistory.ChatText | src/main/java/com/wshg/voice/service/ChatHistoryService.java:57-62 | "问：" + trimmed question, then "\n答：" + trimmed answer exactly when the answer is non-blank |
| ChatHistory.ChatMetadata | src/main/java/com/wshg/voice/service/ChatHistoryService.java:64-73 | six entries with RAG used, five without |
| ChatHistory.ChatMetadataFixed | src/main/java/com/wshg/voice/service/ChatHistoryService.java:65-69 | source "chat", chatId the saved id, category "对话记录" |
| ChatHistory.ChatMetadataDefaults | src/main/java/com/wshg/voice/service/ChatHistoryService.java:67-68 | a null mode or answer source reads as "" |
| ChatHistory.ChatMetadataRagFlag | src/main/java/com/wshg/voice/service/ChatHistoryService.java:71-73 | "ragUsed" is present, and true, exactly when RAG was used |
| ChatHistory.ChatMetadataKeys | src/main/java/com/wshg/voice/service/ChatHistoryService.java:64-73 | the keys in insertion order, "ragUsed" last and only when it holds |
| ChatHistory.ChatDocSurvivesDeviceSync | src/main/java/com/wshg/voice/service/ChatHistoryService.java:65 | chat documents are filed under neither device source, so across a device sync (its frame) a chat document keeps its id and contents |
| ChatHistory.ControlCharacterQuestion | src/main/java/com/wshg/voice/service/ChatHistoryService.java:39-58 | a question of one control character passes the blank test but its document text carries no question |
| ChatHistory.ChatHistoryService.LogChat | src/main/java/com/wshg/voice/service/ChatHistoryService.java:33-80 | a null or blank question changes nothing (`Unchanged`); otherwise the row takes the next id and is appended unchanged, RAG used meaning a non-blank context, and the chat document, tagged with that id, is stored under the next drawn id when its text embeds (`Logged`); a vector insert that throws on the MySQL store rolls the row back and stores nothing, and the id is still consumed |
| Pipeline.ReplaceUnit | src/main/java/com/wshg/voice/service/VoicePipelineService.java:398 | `replace` of one unit keeps the length and changes exactly that unit |
| Pipeline.LocalTtsTextShape | src/main/java/com/wshg/voice/service/VoicePipelineService.java:395-398 | at most 500 units, no '"', '\r' or '\n', and every other unit unchanged |
| Pipeline.SystemPromptChoice | src/main/java/com/wshg/voice/service/VoicePipelineService.java:315-329 | knowledge prompt + context iff RAG is on and the context non-blank; the "don't know" prompt iff RAG is on and the context blank; the plain prompt iff RAG is off |
| Pipeline.Messages | src/main/java/com/wshg/voice/service/VoicePipelineService.java:325-328 | exactly a system message, then the user's text |
| Pipeline.MockAnswersFirst | src/main/java/com/wshg/voice/service/VoicePipelineService.java:53-56 | mock mode answers the mock response whatever the stages would do |
| Pipeline.MissingKeyStopsBeforeRecognition | src/main/java/com/wshg/voice/service/VoicePipelineService.java:112-115 | online without a key fails before recognition, whatever the later stages |
| Pipeline.SuccessShape | src/main/java/com/wshg/voice/service/VoicePipelineService.java:87-159 | success exactly when every stage succeeds; then the trimmed transcript, the trimmed reply without its marker, and base + "/tts/" + file name |
| Pipeline.EmptySpokenReplyFailsOnline | src/main/java/com/wshg/voice/service/VoicePipelineService.java:129-135 | a reply that is only a marker leaves nothing to speak and online synthesis fails |
| Pipeline.SynthesizeGuards | src/main/java/com/wshg/voice/service/VoicePipelineService.java:350-390 | a file name only for a non-blank text, online only with a key; locally a willing synthesiser always gives the name |
| Pipeline.VoicePipelineService.ExecuteDeviceControlAndStrip | src/main/java/com/wshg/voice/service/VoicePipelineService.java:332-341 | the parsed intent is dispatched and the stripped reply returned |
| Pipeline.VoicePipelineService.SwitchRoom | src/main/java/com/wshg/voice/service/VoicePipelineService.java:336 | the room's devices are switched, and the count is the devices whose request the transport accepted |
| Pipeline.VoicePipelineService.BuildMessagesWithRag | src/main/java/com/wshg/voice/service/VoicePipelineService.java:315-329 | the two messages with the chosen prompt; the knowledge base is consulted exactly when RAG is on, and its context is the one `BuildRagContext` retrieves for the text: "" when nothing can be retrieved, otherwise the threshold-filtered texts of a top-k |
| Pipeline.VoicePipelineService.Finish | src/main/java/com/wshg/voice/service/VoicePipelineService.java:105-159 | synthesis then the success response; a success with a non-blank text is logged as `Logged` with the spoken reply, its row `LoggedRow` unless the write rolled back; a failure, a blank text or a failing log leaves history and store unchanged, and a logging failure never changes the answer |
| Pipeline.VoicePipelineService.HandleReply | src/main/java/com/wshg/voice/service/VoicePipelineService.java:97-102 | a thrown call or a null or blank reply ends the request with its error and changes nothing; otherwise the trimmed reply's intent is dispatched, and the stripped reply is spoken and logged (`Logged`, row `LoggedRow` unless rolled back) |
| Pipeline.VoicePipelineService.Answer | src/main/java/com/wshg/voice/service/VoicePipelineService.java:96-159 | the model, device control, synthesis and logging for a recognised text, with the prompt built on the context retrieved from the store as it was; the history and store afterwards are `Logged` on success and `Unchanged` otherwise |
| Pipeline.VoicePipelineService.Process | src/main/java/com/wshg/voice/service/VoicePipelineService.java:49-167 | the response is the stage-by-stage outcome, stopping at the first failure; a device command goes out only when the model is reached; a RAG context exists only then and is the one retrieved for the transcript; a non-mock success with a non-blank transcript is `Logged` (one row `LoggedRow` unless rolled back), anything else leaves history and store `Unchanged` |
| TtsResource.ParsePath | src/main/java/com/wshg/voice/controller/TtsResourceController.java:33 | parsed path elements are never empty |
| TtsResource.ParsePlainName | src/main/java/com/wshg/voice/controller/TtsResourceController.java:33 | a name without '/' is one relative element |
| TtsResource.NormSegsClean | src/main/java/com/wshg/voice/controller/TtsResourceController.java:33 | normalising leaves no "." and ".." only in a leading run of a relative path |
| TtsResource.CleanIsFixed | src/main/java/com/wshg/voice/controller/TtsResourceController.java:33 | a normal path is left as it is |
| TtsResource.NormalizeIdempotent | src/main/java/com/wshg/voice/controller/TtsResourceController.java:33 | normalising twice is normalising once |
| TtsResource.NormSegsAppendPlain | src/main/java/com/wshg/voice/controller/TtsResourceController.java:33 | plain names appended to a path are appended to its normal form |
| TtsResource.ContentType | src/main/java/com/wshg/voice/controller/TtsResourceController.java:40-42 | "audio/mpeg" exactly when the lower-cased name ends in ".mp3", otherwise "audio/wav" |
| TtsResource.GetTtsFile | src/main/java/com/wshg/voice/controller/TtsResourceController.java:31-47 | served exactly when the normalised candidate starts with the directory and exists, with that file, the content type and `inline; filename="<name>"` |
| TtsResource.ServedInsideDir | src/main/java/com/wshg/voice/controller/TtsResourceController.java:33-34 | a served file is normal and lies under the directory with no "." below it, and no ".." below an absolute directory |
| TtsResource.PlainNameServed | src/main/java/com/wshg/voice/controller/TtsResourceController.java:32-37 | with a normal directory, a plain name is served exactly when the file exists |
| TtsResource.SiblingRefused | src/main/java/com/wshg/voice/controller/TtsResourceController.java:33-36 | "../name" climbing into a sibling of an absolute directory gets 404 |
| TtsResource.AbsoluteOutsideRefused | src/main/java/com/wshg/voice/controller/TtsResourceController.java:33-36 | an absolute name normalising outside the directory gets 404 |
| TtsResource.DotInDirRefusesAll | src/main/java/com/wshg/voice/controller/TtsResourceController.java:32-34 | with a "." element in the directory, no plain name is ever served |
| TtsResource.GetTtsFileNormalizedDir | src/main/java/com/wshg/voice/controller/TtsResourceController.java:32-37 | the check against the normalised directory serves exactly the existing candidates under it |
| TtsResource.NormalizedDirServesPlainNames | src/main/java/com/wshg/voice/controller/TtsResourceController.java:32-37 | with that check every plain name is served exactly when its file exists, whatever the directory's spelling |
| VoiceApi.BaseUrl | src/main/java/com/wshg/voice/controller/VoiceUploadController.java:390-399 | scheme "://" host, then the port unless it is the default one, then the context path |
| VoiceApi.BaseUrlOmitsDefaultPort | src/main/java/com/wshg/voice/controller/VoiceUploadController.java:395-398 | the port is left out exactly for http on 80 and https on 443 |
| VoiceApi.ControllerIsBlankMeaning | src/main/java/com/wshg/voice/controller/VoiceUploadController.java:386-388 | the controller's blank test means: every unit at most U+0020 |
| VoiceApi.ControlCharacterBlankToTrimOnly | src/main/java/com/wshg/voice/controller/VoiceUploadController.java:386-388 | a control character is blank to that test but not to `String.isBlank` |
| VoiceApi.IdeographicSpaceBlankToIsBlankOnly | src/main/java/com/wshg/voice/controller/VoiceUploadController.java:386-388 | an ideographic space is blank to `String.isBlank` but not to that test |
| VoiceApi.MegaBytes | src/main/java/com/wshg/voice/controller/VoiceUploadController.java:71 | `size / 1024 / 1024` is the whole number of MiB, rounded toward zero |
| VoiceApi.DefaultLimitMessage | src/main/java/com/wshg/voice/config/VoiceProperties.java:38 | the default 5 MiB limit is announced as "5MB" |
| VoiceApi.DoTts | src/main/java/com/wshg/voice/controller/VoiceUploadController.java:102-116 | 400 for a blank text; 502 exactly when synthesis fails; otherwise the file name and base + "/tts/" + name |
| VoiceApi.CompletionsUrl | src/main/java/com/wshg/voice/controller/VoiceUploadController.java:145-151 | the base (DashScope when blank) without its trailing '/', then "/v1/chat/completions" |
| VoiceApi.QwenRequestShape | src/main/java/com/wshg/voice/controller/VoiceUploadController.java:132-172 | two messages: a system prompt that starts with the knowledge prompt exactly when the context is non-blank, and then ends with the context; then the user's text; 1024 tokens, the key, and the completions URL |
| VoiceApi.TtsText | src/main/java/com/wshg/voice/controller/VoiceUploadController.java:296-298 | at most the first 500 units of the reply |
| VoiceApi.QwenTts | src/main/java/com/wshg/voice/controller/VoiceUploadController.java:291-331 | a result only for a non-blank text and key, from a 2xx answer to the truncated text |
| VoiceApi.SaveAudio | src/main/java/com/wshg/voice/controller/VoiceUploadController.java:191-216 | the file is saved only when the answer has audio, the directory exists and the write succeeds; an escaping exception needs audio and the directory |
| VoiceApi.PayloadBeforeUrl | src/main/java/com/wshg/voice/controller/VoiceUploadController.java:199-207 | with a base64 payload the URL is never fetched |
| VoiceApi.QwenAnswerCases | src/main/java/com/wshg/voice/controller/VoiceUploadController.java:186-246 | an answer exactly when saving did not escape, carrying the reply, with an audio link into /tts/ exactly when the file was saved |
| VoiceApi.QwenAnswerShape | src/main/java/com/wshg/voice/controller/VoiceUploadController.java:174-183 | with a non-blank text and key, a chat answer that is not 2xx with non-blank content is refused or escapes; a usable one is answered with its trimmed text |
| VoiceApi.DownloadFailureLosesReply | src/main/java/com/wshg/voice/controller/VoiceUploadController.java:201-216 | a throwing audio download turns a usable reply into a server error |
| VoiceApi.QwenUploadAnswersTranscript | src/main/java/com/wshg/voice/controller/VoiceUploadController.java:255-283 | speech is answered only after a size-accepted upload gives a non-blank transcript, and then exactly as the typed conversation on it |
| VoiceApi.VoiceController.Upload | src/main/java/com/wshg/voice/controller/VoiceUploadController.java:57-83 | an empty or oversized file gets 400 before the pipeline (a file of exactly the limit passes); otherwise the pipeline's outcome, 422 on error and 200 on success, its RAG context retrieved for the transcript; the history and store are `Logged` for a logged success and `Unchanged` otherwise |
| VoiceApi.VoiceController.CallQwen | src/main/java/com/wshg/voice/controller/VoiceUploadController.java:123-247 | the answer is `QwenReply`; the knowledge base is consulted exactly when RAG is on, with the context retrieved for the text; an answered exchange is `Logged` with that context (row `QwenRow` unless rolled back), anything else leaves history and store `Unchanged` |
| VoiceApi.VoiceController.Converse | src/main/java/com/wshg/voice/controller/VoiceUploadController.java:141-183 | once the context is known, the answer is `QwenReply` for that context; an answered exchange is `Logged` (row `QwenRow` unless rolled back), anything else leaves history and store `Unchanged` |
| VoiceApi.VoiceController.Respond | src/main/java/com/wshg/voice/controller/VoiceUploadController.java:183-247 | speech, logging and the answer once the reply is known: the answer carries the reply, and an answered exchange is `Logged` with the text, reply and context (row `QwenRow` unless rolled back); an escaped save or a failing log leaves history and store `Unchanged` |
| VoiceApi.VoiceController.UploadAndCallQwen | src/main/java/com/wshg/voice/controller/VoiceUploadController.java:254-283 | the answer is `QwenUploadReply`, any RAG context is the one retrieved for the transcript, an answer needs a transcript, and the answered exchange on it is `Logged` (row `QwenRow` unless rolled back); anything else leaves history and store `Unchanged` |
| VectorApi.PostTopK | src/main/java/com/wshg/voice/controller/VectorController.java:83-84 | a number's value, otherwise 5 |
| VectorApi.Clamp | src/main/java/com/wshg/voice/controller/VectorController.java:92 | always in 1..50, and the value itself when already in range |
| VectorApi.SearchReply | src/main/java/com/wshg/voice/controller/VectorController.java:96-111 | the hits in search order with their scores and count, null metadata as {}; an exception exactly when a hit has a null id or text |
| VectorApi.NoHitsListed | src/main/java/com/wshg/voice/controller/VectorController.java:96-111 | no hits list as an empty answer |
| VectorApi.VectorController.AddDocument | src/main/java/com/wshg/voice/controller/VectorController.java:31-48 | 400 for a blank text with nothing added; 502 when embedding fails; otherwise the new id and the text |
| VectorApi.VectorController.AddDocumentsBatch | src/main/java/com/wshg/voice/controller/VectorController.java:55-66 | 400 for null or empty texts; otherwise the new ids and their count |
| VectorApi.VectorController.SearchGet | src/main/java/com/wshg/voice/controller/VectorController.java:73-78 | 400 for a blank query; otherwise the top `Clamp(topK)` documents for the query's embedding (none when it cannot be embedded), listed |
| VectorApi.VectorController.SearchPost | src/main/java/com/wshg/voice/controller/VectorController.java:80-86 | 400 for a null or blank query; otherwise the search with `topK` taken from the body (5 unless a number) |
| VectorApi.VectorController.DoSearch | src/main/java/com/wshg/voice/controller/VectorController.java:88-112 | 400 for a blank query; otherwise at most 50 hits, best first |
| VectorApi.VectorController.GetStats | src/main/java/com/wshg/voice/controller/VectorController.java:118-121 | the document count |
| VectorApi.VectorController.Clear | src/main/java/com/wshg/voice/controller/VectorController.java:127-132 | the store is empty |
| VectorApi.VectorController.SyncFromDevices | src/main/java/com/wshg/voice/controller/VectorController.java:139-148 | the answer counts the documents written (`SyncWrites`), at most one per enabled device plus the rule document; the store is `Rebuilt` from the devices: on a consistent store exactly `SyncedDocs`, and every non-device document not replaced by a drawn id is kept |
| DeviceApi.FindById | src/main/java/com/wshg/voice/controller/DeviceController.java:38 | the row with that id, or none when no row has it |
| DeviceApi.FindByIdUnique | src/main/java/com/wshg/voice/entity/SmartHomeDevice.java:21-23 | in a table with unique ids, the row found under an id is that row |
| DeviceApi.ReplaceRow | src/main/java/com/wshg/voice/controller/DeviceController.java:57 | saving a present id keeps the number of rows |
| DeviceApi.DeleteRow | src/main/java/com/wshg/voice/controller/DeviceController.java:67 | exactly the rows with other ids remain |
| DeviceApi.InsertKeepsInvariant | src/main/java/com/wshg/voice/entity/SmartHomeDevice.java:21-35 | an insert under the next id keeps ids and device ids unique and the required columns set |
| DeviceApi.ReplaceKeepsInvariant | src/main/java/com/wshg/voice/controller/DeviceController.java:55-57 | replacing a row keeps the table invariant, and the id then finds the new row |
| DeviceApi.ReplacePairs | src/main/java/com/wshg/voice/entity/SmartHomeDevice.java:26-27 | after the replacement, ids and device ids are pairwise distinct |
| DeviceApi.DeleteKeepsInvariant | src/main/java/com/wshg/voice/controller/DeviceController.java:67 | deleting keeps the table invariant and the id is gone |
| DeviceApi.ControlCount | src/main/java/com/wshg/voice/controller/DeviceController.java:84-90 | with a device id, the count is 1 exactly when that device is found and accepts; otherwise at most the devices the room addresses ("all" for a null room) |
| DeviceApi.BlankRoomIsNotAll | src/main/java/com/wshg/voice/controller/DeviceController.java:89 | a null room means all enabled devices; an empty room does not |
| DeviceApi.DeviceController.List | src/main/java/com/wshg/voice/controller/DeviceController.java:28-34 | for a non-blank room, its enabled devices; otherwise every enabled device |
| DeviceApi.DeviceController.Get | src/main/java/com/wshg/voice/controller/DeviceController.java:36-41 | the row, or 404 exactly when no row has the id |
| DeviceApi.DeviceController.Resync | src/main/java/com/wshg/voice/controller/DeviceController.java:47 | after a change the store is `Rebuilt` from the new table: one drawn id per document written and, on a consistent store, exactly `SyncedDocs`, at most one device document per enabled device plus the rule, every non-device document not replaced by a drawn id kept |
| DeviceApi.DeviceController.Create | src/main/java/com/wshg/voice/controller/DeviceController.java:43-50 | the device goes in under the next id, is found there and is returned, then the store is `Rebuilt` from the new table; a row the table refuses (a missing required column or a taken device id) is a server error and changes nothing, the store and its draws included |
| DeviceApi.DeviceController.Update | src/main/java/com/wshg/voice/controller/DeviceController.java:52-61 | 404 for an unknown id and a server error for a refused row, with no save or sync; otherwise the row is replaced and the store `Rebuilt` from the new table |
| DeviceApi.DeviceController.Delete | src/main/java/com/wshg/voice/controller/DeviceController.java:63-71 | 404 for an unknown id with no delete or sync; otherwise the row goes, 204, and the store is `Rebuilt` from the new table |
| DeviceApi.DeviceController.Control | src/main/java/com/wshg/voice/controller/DeviceController.java:73-93 | 400 for an action other than on/off; otherwise the count, and success exactly when it is positive |

## Left out

- Remote services are function parameters: ASR, chat completion, TTS, embeddings, audio downloads and the device HTTP calls. A RestTemplate call that throws on a non-2xx status is modelled as such where the controller lets the exception escape.
- Process runs (`paddlespeech`), their timeouts, and file-system effects are given as outcomes: directory creation, file writes, temp-file deletion, the snapshot file of the in-memory store. The chat row save is modelled, but the history repository itself is not.
- JSON (de)serialisation is given as parsed values: a table row holds an unparsed or parsed embedding and metadata. Base64 encoding and decoding are given as a function on the payload.
- Floating point is left out: embeddings are `real` sequences, the cosine similarity is an uninterpreted score, and the float/double conversions are not modelled.
- UUIDs and the clock are given values. Fresh ids come from a supplied UUID sequence; file-name prefixes and timestamps (`createdAt`, `updatedAt`) are inputs.
- Concurrency is left out: `executeByRoomAsync` is a synchronous call whose count is dropped, and the thread safety of `ConcurrentHashMap` is not modelled.
- Logging and the `health()` endpoint are left out; `health()` answers a constant.
- Configuration is the `Config`/`Settings` values (mode, mock, key, RAG flag, `ragTopK`, `ragMinScore`, upload limit, base URLs, model names).
- VectorService.VectorStoreService.BuildRagContext: `ragTopK` is a natural number, because `Stream.limit` throws on a negative value.
- Characters outside the Basic Multilingual Plane are not modelled: a Dafny `char` excludes surrogate code units.
- The `(Number) intValue()` conversion of a JSON `topK` is given as its resulting `int`.
- A `ClassCastException` from a JSON body field of the wrong type (e.g. a non-string `text`) is not modelled.
- JSON body defaults of the device entity (e.g. `enabled = true` when absent) are taken as already applied.
- Column length limits of the entities are not modelled.
- A created device that carries its own id is not modelled. JPA would merge it rather than insert it; the model always inserts under the next id.
- The null-embedding skip in `addDocuments` is not modelled. Both embedding converters turn a null list into an empty array, so the skip never applies to their output.
- VectorService.VectorStoreService.SyncFromDevices: a non-device document is said to survive only when its id is none of the ids drawn during the sync. A drawn 16-digit id equal to an existing one overwrites that document, as `put` does. The frame is stated for a store whose MySQL cache and table agree on sources.
- VectorService.VectorStoreService.RemoveBySource: the exact removal is stated only for a consistent cache and a source name that the MySQL column cannot confuse with a number, a boolean or a list. Otherwise the contract states only that everything the in-memory removal would remove goes.
- DeviceControl.StripDeviceControlLine: its own contract states the length bound and the trimmed ends. What stripping removes is stated by ParseAndStripMarker, CollapseBlankLine and StripAnswerThenMarker, for a marker in text without '['.
- Pipeline.VoicePipelineService.Process: it states that a RAG context exists only when the model is reached, and that it is the retrieved one. It does not state the converse at this level; Answer states it.
- VectorService.VectorStoreService.AddDocuments: does not state that the store stays source-consistent for the MySQL backend.
- ChatHistory.ChatHistoryService.LogChat: the vector write fails only where its insert throws inside `logChat`, on the MySQL store. A failure when the transaction commits and flushes is not modelled: the cache would hold the document while the table and the history roll back. The in-memory store's write does not fail.
- ChatHistory.ChatHistoryService.LogChat: the exception that the rolled-back commit throws is caught by each caller and only logged, so the callers model it by the history and store it leaves.
- VectorService.VectorStoreService.SyncedHasDocuments: it assumes the drawn ids are distinct. Two equal 16-digit ids make the later document overwrite the earlier one, as `put` does.
- Pipeline.VoicePipelineService.Process: the UTF-8 round trip through the local TTS input file is taken as the identity.
- The embedding request builders (`EmbeddingRequest`, `OllamaEmbedRequest`) and URL builders of `EmbeddingService` are not part of this model.
- `ChatHistoryController` is not part of this model; it is paging over the history repository.

## Findings

| source | as written | input that shows it | evidently intended | confidence | as-written member | corrected member |
|---|---|---|---|---|---|---|
| src/main/java/com/wshg/voice/controller/TtsResourceController.java:32-34 | the candidate file is normalised, but the configured directory (`Path.of(ttsDir).toAbsolutePath()`, VoiceProperties.java:105) is not, and `startsWith` compares them element by element | tts-dir configured as `./tts-output`, so the directory is `/app/./tts-output`; a request for `reply.wav` resolves to `/app/tts-output/reply.wav`, which does not start with `/app/./tts-output` | every plain file name inside the directory is served when the file exists | not executed | TtsResource.DotInDirRefusesAll | TtsResource.NormalizedDirServesPlainNames |
