# Chat-export ingestion and retrieval service, modelled in Dafny

The system ingests chat exports and text files into a vector store and answers questions from
what it retrieves. This project models its deterministic core:

- **index.js (Node.js service).**
  - `parseLine`: recognises a WhatsApp line of the form `DD/MM/YYYY HH:MM - SENDER: MESSAGE` and
    turns it into a record.
  - The loop of the `/upload` route: trims and parses every line of the export, then embeds and
    adds each parsed line to the store on its own. One line's failure does not stop the loop.
- **api_nova.py (Python service).**
  - `split_into_sentences`: cuts a text after `.`, `!` or `?` followed by whitespace, then at line
    feeds, then strips the pieces and drops empty ones.
  - `upload_file`: checks the file name, splits the text into sentences and assembles the batch
    handed to the vector store.
  - `query`: rejects a blank question, assembles the context and the prompt from the retrieved
    documents, and builds the list of sources.

The model has six modules, one per file:

| file | module | what it holds |
|---|---|---|
| `outcomes.dfy` | `Outcomes` | `Option` and `Result` |
| `text.dfy` | `Text` | JavaScript and Python whitespace, `trim`/`strip`, `split` on one character, `join`, decimal rendering of integers |
| `chat_line.dfy` | `ChatLine` | `parseLine`, and the layout its regular expression describes |
| `chat_upload.dfy` | `ChatUpload` | the `/upload` route of the Node.js service |
| `sentences.dfy` | `Sentences` | `split_into_sentences` |
| `rag_api.dfy` | `RagApi` | `upload_file` and `query` of the Python service |

The embedding model, the vector store, the language model, the clock and the uuid generator are
not modelled. Each appears as a function parameter (an oracle) that gives the outcome of the call:

- In `ChatUpload`, the oracles are keyed by the line index: `embedOk(i)`, `addOk(i)`, and `clock(i)`
  (the value of `Date.now()`).
- In `RagApi`, they are keyed by the sentence index: `newId(i)` and `embed(i)`. `addOk(batch)` gives
  the outcome of `collection.add`, and `embed(q)`, `search(v, k)` and `generate(prompt)` give the
  outcomes of the calls made by a query.

Where the code loops or appends, the model is a method with a loop. Each such method is proved
equal to a specification function, and the properties are lemmas about that function. The
regular expression of `parseLine` appears twice: as `ChatLine.IsLayout`, which says how a
matching line is glued together from its four groups, and as `ChatLine.ParseLine`, which finds
the groups by position. Lemmas prove the two agree.

`re.split(r'(?<=[.!?])\s+', text)` is modelled as a scan:

- The next match is the leftmost position holding whitespace right after a sentence end.
- The greedy `\s+` takes the maximal run of whitespace there.
- The text after that run is split again.

Text without a match is a single piece, and empty text gives `[""]`, as in Python.

What the two routes return, as the code does it:

- The `/upload` route of the Node.js service replies `{ ok: true, inseridos }` and nothing else:
  the lines that failed are only logged.
- `query` joins the context pieces with `"\n---\n"`. It calls the language model even when
  nothing was retrieved, and returns its answer unchanged, next to one source per retrieved
  document.

## Model

| member | source | states |
|---|---|---|
| Text.Trim | index.js:56-57 | JavaScript's `trim` and Python's `strip()` for the given whitespace class: never longer than the input; TrimSlice and TrimIsTrimmed below say it is the input without its leading and trailing whitespace |
| Text.TrimStartSpec | index.js:56-57 | `trim` drops exactly a leading run of whitespace: the result is a suffix of the input, everything dropped is whitespace, and the result does not start with whitespace |
| Text.TrimEndSpec | index.js:56-57 | symmetrically for the trailing run: the result is a prefix, everything dropped is whitespace, the result does not end with whitespace |
| Text.TrimSlice | api_nova.py:44 | `strip()` returns a contiguous slice `s[i..j]` with only whitespace outside it |
| Text.TrimIsTrimmed | api_nova.py:44 | a stripped string neither starts nor ends with whitespace |
| Text.TrimEmptyIff | api_nova.py:45 | a stripped string is empty exactly when the input is all whitespace |
| Text.TrimOfTrimmed | index.js:56-57 | stripping is the identity on a string that is already trimmed |
| Text.TrimCover | api_nova.py:44 | a non-whitespace character survives `strip()`, at some offset of the result |
| Text.TrimChars | index.js:56 | every character of the stripped string occurs in the input, so a sender without `:` stays without `:` |
| Text.IndexOfAppend | index.js:48 | the first occurrence of a character in `a + b`, when `a` lacks it, is found in `b` shifted by `|a|` |
| Text.SplitOn | index.js:109 | `split` on one character gives at least one piece and no piece contains the separator |
| Text.SplitOnTail | index.js:109 | past the first separator, the pieces are those of the rest of the string, one place later |
| Text.SplitOnCover | api_nova.py:43 | every character other than the separator is in some piece, at some offset |
| Text.Join | api_nova.py:134 | `sep.join(parts)`: the pieces with the separator between consecutive ones; JoinSplit and SplitJoin below show it is the inverse of the split |
| Text.JoinSplit | index.js:109 | joining the pieces of a split with the separator gives back the string |
| Text.SplitJoin | api_nova.py:43 | splitting a join of separator-free pieces gives back the pieces |
| Text.SplitAtSeparator | index.js:122 | a string `a + sep + b` with `sep` not in `a` determines `a` and `b` |
| Text.Decimal | index.js:122 | `Number.prototype.toString` of a non-negative integer: at least one character, all ASCII digits |
| Text.DecimalRoundTrip | index.js:122 | reading the decimal digits of `n` back gives `n` |
| Text.DecimalInjective | index.js:122 | distinct numbers have distinct decimal renderings |
| ChatLine.IsLayout | index.js:48 | the language of the regular expression: the date group, a space, the time group, ` - `, a non-empty sender without `:`, `: ` and a message without line terminator; such a line has at least 22 characters and starts with the date and the time |
| ChatLine.RecordOf | index.js:51-58 | the record of a match: `raw` is the line, the datetime has 19 characters, phone and message are trimmed |
| ChatLine.IsoDateTime | index.js:52-53 | the datetime has 19 characters, `-`, `-` and `T` at 4, 7 and 10, the time at 11..16 and `:00` at the end, and day, month and year read back from it give the date group again |
| ChatLine.SenderEnd | index.js:48 | the sender ends at the first colon at or after position 19, or at the end of the line |
| ChatLine.ParseLine | index.js:47-60 | on a match, `raw` is the line, `phone` has no `:` and no leading or trailing whitespace, `message` is trimmed and has no line terminator |
| ChatLine.LayoutSplit | index.js:48 | a line glued from the four groups has the header in place, and the sender runs exactly to the first colon after position 19 |
| ChatLine.ParseLineComplete | index.js:47-60 | every line of the layout parses, to the record built from its groups |
| ChatLine.ParseLineSound | index.js:47-60 | whatever parses is a line of the layout, and its record is built from its groups |
| ChatLine.ParseLineGroups | index.js:48-53 | an accepted line has a header, a non-empty sender ended by `: `, and a message without line terminator |
| ChatLine.ParseLineNoneIff | index.js:48-50 | `parseLine` returns null exactly for the lines that do not fit the layout |
| ChatLine.LayoutUnique | index.js:48 | a line splits into the four groups in at most one way |
| ChatLine.ParseLineExample | index.js:47-60 | `"01/02/2023 09:15 - Ana: Bom dia"` gives datetime `2023-02-01T09:15:00`, phone `Ana`, message `Bom dia` |
| ChatLine.ParseLineNoCalendarCheck | index.js:51-53 | `99/99/0000 99:99` is accepted and gives `0000-99-99T99:99:00`: no calendar check |
| ChatLine.ParseLineRejectsColonWithoutSpace | index.js:48-50 | a colon after the sender that is not followed by a space rejects the line, even if a later `": "` exists |
| ChatUpload.DocFor | index.js:125-134 | the document stored for a parsed line: the message as text and phone, datetime, raw line and line index as metadata, under the id DocId gives; IngestSound states that every stored document is this one |
| ChatUpload.DocId | index.js:122 | `Date.now() + "_" + i`: digits, an underscore and digits, starting and ending with a digit; DocIdInjective below shows it determines the clock value and i |
| ChatUpload.ParseAll | index.js:113-115 | the parse of every trimmed line: one entry per line |
| ChatUpload.ParseAllAt | index.js:114 | entry i of the parsed lines is the parse of the trimmed line i |
| ChatUpload.ParseEntry | index.js:114 | one parse call gives entry i of the parsed lines, and an accepted record keeps the trimmed line as `raw` |
| ChatUpload.TryStore | index.js:117-141 | the try block stores exactly the document of the line when both the embedding and the insertion succeed, and nothing otherwise |
| ChatUpload.IngestLine | index.js:114-141 | one round adds nothing for a line that does not parse, and otherwise what the try block stores |
| ChatUpload.IngestLines | index.js:111-143 | the loop stores the documents of the specification, in line order, and `inseridos` counts them |
| ChatUpload.IngestFrom | index.js:113-143 | the documents the loop stores for the lines from a given index on, in line order; IngestSound, IngestComplete, IngestOrdered, IngestIdsDistinct and IngestCount below state what they are |
| ChatUpload.IngestToFrom | index.js:113-143 | what the loop has stored before line i, followed by what the remaining lines store, is the whole result |
| ChatUpload.Upload | index.js:104-145 | no file gives 400; otherwise the content is split on `"\n"`, the loop runs, and the reply reports a count no larger than the number of parsed lines |
| ChatUpload.IngestSound | index.js:114-136 | every stored document comes from a line that parsed and whose calls both succeeded, with the parsed message, the parsed fields, `line_index = i`, and the id made from the clock and i |
| ChatUpload.IngestComplete | index.js:117-142 | a parsed line whose calls succeed is stored whatever happened on other lines: a failure does not stop the loop |
| ChatUpload.IngestOrdered | index.js:113 | documents are stored in line order, each line at most once |
| ChatUpload.DocIdInjective | index.js:122 | `Date.now() + "_" + i` determines both the clock value and i, since the digits contain no `_` |
| ChatUpload.IngestIdsDistinct | index.js:122 | within one upload all ids are pairwise distinct |
| ChatUpload.IngestCount | index.js:113-137 | stored plus failed lines equal the parsed lines, so `inseridos` never exceeds them, and equals them when no embedding or insertion fails |
| ChatUpload.NoFailures | index.js:117-141 | when every parsed line's embedding and insertion succeed, no line is counted as failed |
| Sentences.Sentences | api_nova.py:39-47 | the list split_into_sentences returns; SentencesShape, SentencesEmptyIff, SentencesInOrder and SentencesCover below state its properties |
| Sentences.SplitAtBreaks | api_nova.py:40 | `re.split(r'(?<=[.!?])\s+', text)`: at least one piece, even for an empty text |
| Sentences.SplitFrom | api_nova.py:40 | `re.split` of the text from a position on: at least one piece |
| Sentences.FirstBreak | api_nova.py:40 | the leftmost position at or after `from` where whitespace follows `.`, `!` or `?` |
| Sentences.RunEnd | api_nova.py:40 | `\s+` takes the maximal whitespace run |
| Sentences.SplitIntoSentences | api_nova.py:39-47 | the nested loops return the sentences of the specification function |
| Sentences.AppendLines | api_nova.py:43-46 | the inner loop appends the non-empty stripped pieces of one `split('\n')`, in order |
| Sentences.KeptIsSentence | api_nova.py:44-46 | a kept piece is non-empty, stripped, without `\n`, and without a sentence end followed by whitespace |
| Sentences.PiecesNoBreak | api_nova.py:40 | no piece of `re.split` contains a sentence end followed by whitespace |
| Sentences.SentencesShape | api_nova.py:39-47 | every returned sentence is non-empty, stripped, without `\n`, and without a sentence end followed by whitespace |
| Sentences.SentencesEmptyIff | api_nova.py:39-47 | the result is empty exactly when the text is empty or whitespace only |
| Sentences.PiecesCover | api_nova.py:40 | every non-whitespace character of the text lies in some piece of `re.split`, at a given offset of that piece |
| Sentences.KeepStrippedCover | api_nova.py:43-46 | a non-whitespace character of a line survives the strip and is in one of the kept lines |
| Sentences.SentencesOfCover | api_nova.py:41-46 | a non-whitespace character of a piece is in one of the collected sentences |
| Sentences.SentencesCover | api_nova.py:39-47 | every non-whitespace character of the text occurs, as a value, at some offset of some sentence; SentencesInOrder below places it in the text |
| Sentences.KeepStripped | api_nova.py:43-46 | the inner loop's result for one piece: the stripped non-empty lines, in order; AppendLines, KeepStrippedCover and LinesOrdered state its properties |
| Sentences.SentencesOf | api_nova.py:41-46 | the nested loops' result for a list of pieces; SentencesOfCover, SentencesOfBlankIff and SentencesOfOrdered state its properties |
| Sentences.PiecesOrdered | api_nova.py:40 | the pieces of `re.split` are slices of the text at increasing offsets, without overlap, and every non-whitespace character of the text lies inside one |
| Sentences.SentencesOfOrdered | api_nova.py:41-46 | for pieces laid out in the text that way, the collected sentences are again slices of the text in order, without overlap, and every non-whitespace character the pieces cover lies inside one of them |
| Sentences.CoversAppend | api_nova.py:41-46 | two covered stretches of text separated by whitespace only are covered by the two lists of parts together |
| Sentences.SentencesOfBlankIff | api_nova.py:42-46 | the nested loops keep nothing exactly when every piece is blank |
| Sentences.LinesOrdered | api_nova.py:43-46 | the kept lines of a piece occur in it in order, without overlap |
| Sentences.SentencesInOrder | api_nova.py:39-47 | the sentences are the non-whitespace content of the text: at the offsets returned, each sentence is the slice of the text there, they follow one another without overlap, and every non-whitespace character of the text lies inside one of them; so only whitespace is dropped and a repeated sentence is kept once per occurrence |
| Sentences.SentencesRepeated | api_nova.py:39-47 | `"a. a."` gives `["a.", "a."]`: a sentence that occurs twice is returned twice |
| RagApi.HasTxtSuffix | api_nova.py:73 | `filename.lower().endswith('.txt')`; TxtSuffixIff below lists the names it accepts |
| RagApi.TxtSuffixIff | api_nova.py:73-74 | a name passes `lower().endswith('.txt')` exactly when it ends in `.` followed by t, x, t in either case |
| RagApi.Successes | api_nova.py:90-95 | the embeddings collected from the first n sentences: at most n, in sentence order |
| RagApi.SuccessesFullIff | api_nova.py:90-95 | every sentence's embedding is kept exactly when none fails |
| RagApi.SuccessesEmptyIff | api_nova.py:97-98 | no embedding is kept exactly when every one fails |
| RagApi.SourceMeta | api_nova.py:88 | the metadata `{"source": filename}` attached to each sentence; CollectBatch and AlignedUpToSpec state that every entry is this map |
| RagApi.LoopBatch | api_nova.py:85-95 | the batch the loop as written builds: ids, metadatas and documents have one entry per sentence, embeddings at most as many |
| RagApi.CollectBatch | api_nova.py:85-95 | the loop gives one id, one `{"source": filename}` and one document per sentence, but embeddings only for the successes |
| RagApi.UploadFile | api_nova.py:72-107 | a name without `.txt` gives 400 before anything else; a blank text gives 400; no embedding gives 500 and no call to `add`; otherwise the batch is handed to `add` and `inserted` is the number of embeddings |
| RagApi.LoopBatchAlignedIff | api_nova.py:85-95 | ids, metadatas and documents have one entry per sentence, and the batch is aligned exactly when no embedding fails |
| RagApi.UploadMisaligned | api_nova.py:85-100 | when one embedding fails and another succeeds, `add` receives more ids than embeddings |
| RagApi.UploadMisalignedExample | api_nova.py:85-100 | two sentences with the first embedding failing give two ids and one embedding |
| RagApi.AlignedUpTo | api_nova.py:85-95 | the batch the corrected loop builds from the first n sentences: its four lists have equal length, at most n |
| RagApi.AlignedUpToSpec | api_nova.py:85-95 | the corrected batch has its four lists of equal length, the same embeddings as the batch as written, and `{"source": filename}` everywhere |
| RagApi.OkIndices | api_nova.py:90-95 | the indices of the sentences whose embedding succeeds, each below the sentence count |
| RagApi.AlignedUpToPairs | api_nova.py:85-95 | entry m of the corrected batch is one sentence: its id, document and embedding all belong to the m-th sentence whose embedding succeeds, the sentences keep their order, and none of those sentences is left out |
| RagApi.AlignedUpToAllOk | api_nova.py:85-95 | when no embedding fails, the corrected batch holds every sentence with its id, as the batch as written does |
| RagApi.CollectAlignedBatch | api_nova.py:85-95 | the corrected loop builds the corrected batch, which is aligned |
| RagApi.UploadFileAligned | api_nova.py:72-107 | the corrected route gives the same replies, and whatever it hands to `add` is aligned and non-empty |
| RagApi.IsBlank | api_nova.py:114 | `not q or not q.strip()`; BlankIff below says it holds exactly for whitespace-only queries |
| RagApi.BlankIff | api_nova.py:114-115 | a query is rejected exactly when it is empty or whitespace only |
| RagApi.MetaSource | api_nova.py:132 | `get('source')` is defined exactly when the key is present |
| RagApi.SourceLabel | api_nova.py:132-133 | the label is never empty: a missing metadata entry, a missing key or an empty source give `unknown` |
| RagApi.ContextPiece | api_nova.py:133 | the f-string `Source: {name}\n{doc}`; PromptHasDocument states that each document reaches the prompt with its label |
| RagApi.ContextPieces | api_nova.py:130-133 | the context pieces: one per retrieved document |
| RagApi.BuildContextPieces | api_nova.py:130-133 | the loop builds one piece per retrieved document, in retrieval order |
| RagApi.Sources | api_nova.py:140-143 | `sources` fails with 500 exactly when ids, metadatas or distances are shorter than the documents, and otherwise has one entry per document |
| RagApi.Query | api_nova.py:110-143 | a blank query gives 400 before any call; a failed embedding gives 500 with its message; a failed search gives 500; a failed generation gives 500 with its message; otherwise the answer and the sources |
| RagApi.JoinHas | api_nova.py:134 | every piece occurs in the joined context |
| RagApi.Prompt | api_nova.py:136 | the f-string prompt around the context and the question; PromptHasQuestion, PromptHasContext and PromptHasDocument below say what reaches the language model |
| RagApi.PromptHasQuestion | api_nova.py:136 | the question occurs in the prompt verbatim |
| RagApi.PromptHasContext | api_nova.py:136 | the context occurs in the prompt verbatim |
| RagApi.PromptHasDocument | api_nova.py:130-136 | every retrieved document reaches the language model, labelled with its source |
| RagApi.SourcesMatchContext | api_nova.py:132-142 | source i has the id, distance and text of document i, and its source is the label the context gives it (or `unknown`) |

## Left out

- HTTP plumbing is not modelled: routing, multer, CORS, FastAPI validation and the 422 for a
  missing file field, reading and deleting the uploaded file, and logging. The outer `catch` of
  the Node.js route (500 when reading the file fails) is I/O and is left out with it.
- The embedding model, the language model and the vector store appear only as oracles. The
  store's own behaviour is not modelled, including what Chroma does with a batch whose lists
  differ in length.
- `generateEmbedding`, the collection initialisation at start-up, and the routes other than the
  two `/upload` routes and `/ia-prompt` are not part of this model.
- `uuid.uuid4()` and `Date.now()` are opaque inputs. Only the id string built from the clock and
  the line index is modelled.
- ChatUpload.DocId: renders the clock in plain decimal. `Number.prototype.toString` switches to
  exponent notation from 10^21 on, which a millisecond clock does not reach.
- Characters are Unicode scalar values. JavaScript strings are UTF-16 code units, and unpaired
  surrogates are not modelled.
- RagApi.HasTxtSuffix: folds only ASCII capitals. Python's `str.lower` is full Unicode, but no
  other character lowers to `.`, `t` or `x`, so the accepted names are the same.
- The UTF-8 decoding with `errors='ignore'` is library behaviour: the model takes the decoded text.
- Metadata values are strings. Chroma also allows numbers and booleans, and a `None` entry in
  `metadatas` would raise `AttributeError`. Neither is modelled.
- Distances are copied into the sources and not interpreted. `k` is only passed to the store.
- `chroma_client.persist()` and its swallowed error do not change the reply, and are left out.
- `teste.py` (a Streamlit front end that posts to the API) is not part of this model.

## Findings

| source | as written | input that shows it | evidently intended | confidence | as-written member | corrected member |
|---|---|---|---|---|---|---|
| api_nova.py:85-100 | `ids`, `metadatas` and `documents` get an entry for every sentence before the embedding is tried. `embeddings` gets one only on success, and `collection.add` is called as soon as one embedding succeeded | a `.txt` file whose text is `A. B.`, where the embedding of `A.` fails and that of `B.` succeeds: `add` receives 2 ids and documents but 1 embedding | keep the id, metadata and document of a sentence only together with its embedding, so the four lists stay aligned and `inserted` counts what is stored | not executed | RagApi.UploadMisaligned | RagApi.UploadFileAligned |
