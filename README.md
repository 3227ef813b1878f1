# interview-rag: the interview engine and the chat handlers in Dafny

interview-rag runs a mock job interview over a candidate's résumé. The upload
handler stores the résumé PDF as a File record, indexes it into a vector
collection and opens an Interview. Each call to the question handler asks the
interview engine for the next question and stores it as a Chat with an empty
response. The answer handler then fills that response in. The engine
(`backend/src/connections/dbQdrant.ts`) does the following:

- It reads the résumé chunks back from the collection.
- It prints the earlier turns as a `Q1: … / A1: …` transcript.
- It asks a personal-background question while the history has at most four
  turns, and a technical question that also carries the résumé context after
  that.
- It trims the generated text.
- For the final scorecard it extracts the text inside a "```json" fence, or
  inside any fence.
- It classifies a candidate's reply as an answer or as a request for
  clarification. A clarification request sends a second request that rephrases
  the question.

The model has four modules:

- `Wrappers` (`wrappers.dfy`) holds `Option` and `Result`.
- `JsString` (`jsstring.dfy`) holds the JavaScript string operations the engine
  calls: `trim` with the ECMAScript white-space set, `join` and the decimal
  printing of a number in a template literal. It also holds what the two fence
  regexes are read as: a first-occurrence search `IndexOfFrom` for the lazy
  `[\s\S]*?` body, the greedy `\s*` and the `i` flag's ASCII case folding.
  `Split` is not called by the engine; it exists to state that a `join` can be
  undone (`SplitJoin`, `Engine.ContextChunks`, `Engine.HistoryDeterminesTurns`).
- `Engine` (`engine.dfy`) holds the three engine functions. They are written as
  pure functions, because the source computes them with `map`/`join` and
  conditional expressions.
- `ChatController` (`chat.dfy`) holds the three request handlers of
  `backend/src/controllers/chat.controller.ts`. They are methods of the class
  `Store`, whose fields are the Chat sequence, the File and Interview maps and
  an id counter. Each method states the store's whole new state and keeps the
  invariant `Valid`:
  - ids are fresh and chat ids are distinct;
  - every chat belongs to a stored File;
  - every Interview belongs to a File whose indexing succeeded.

The language model is a parameter, `gen: Prompt -> Option<string>`. `None`
means the reply has no `text`. A `Prompt` keeps only the data the request
embeds: the history, the résumé context, the transcript, or the question and
the answer. Every engine operation returns a `Step`, which holds its outcome
and the requests it sent, in order. This is how "no request is sent" and "the
second request only on clarification" are stated. The points a collection
scroll returns are an input, as are the outcome of indexing an upload and the
upload time.

Some properties a reader might expect do not hold of the code:

- The history formatter is injective only when no question or response
  contains a line break.
  - `Engine.HistoryDeterminesTurns` proves it in that case.
  - `Engine.HistoryOrderCollision` gives two turns, one of whose questions
    contains `"\nA1: \nQ2: "`. Both orders of the two turns print the same
    transcript.
- The rephrased question can be empty. The code returns `text!.trim()`, which
  is `""` for a blank reply and throws a TypeError when the reply has no text. `Engine.ClassifyAnswer` models both
  cases.
- A label other than exactly `"clarification"` after trimming, including
  `"Clarification"`, counts as an answer.
- The handler for answers replies with the chat as it was before the update.
  `findByIdAndUpdate` is called without `{ new: true }`, and the model keeps
  that.

## Model

| member | source | states |
|---|---|---|
| JsString.Trim | backend/src/connections/dbQdrant.ts:177 | `trim` leaves a text without white space at either end, obtained by removing only white space at the two ends; it is empty exactly when the input is all white space |
| JsString.TrimPadded | backend/src/connections/dbQdrant.ts:254 | trimming a text that has no outer white space of its own, padded with white space, gives that text back |
| JsString.TrimIdempotent | backend/src/connections/dbQdrant.ts:177 | trimming twice is trimming once |
| JsString.Decimal | backend/src/connections/dbQdrant.ts:76 | the turn number prints as a non-empty run of decimal digits without a leading zero |
| JsString.DecimalVal | backend/src/connections/dbQdrant.ts:76 | `Decimal` prints n in decimal: the digits spell n back |
| JsString.Join | backend/src/connections/dbQdrant.ts:68 | `join` of the chunk texts, and at line 78 of the history blocks; its properties are `SplitJoin`, `JoinPairs` (through `Engine.HistoryIsLines`) and `Engine.ContextChunks` |
| JsString.IndexOfFrom | backend/src/connections/dbQdrant.ts:229-230 | the lazy `[\s\S]*?` body ends at the first closing fence at or after its start, and there is none when no fence follows |
| JsString.SkipSpace | backend/src/connections/dbQdrant.ts:229 | `\s*` after the json opener consumes exactly the white space run, stopping at the first other character |
| JsString.SkipSpaceTo | backend/src/connections/dbQdrant.ts:229 | that run ends at the first character that is not white space |
| JsString.SkipSpaceBack | backend/src/connections/dbQdrant.ts:177 | the trailing white space that `trim` removes: a run of white space ending at the end, preceded by a character that is not white space or by the leading run |
| JsString.TrimFixed | backend/src/connections/dbQdrant.ts:177 | a text without outer white space is its own trim |
| JsString.IndexOfFromIs | backend/src/connections/dbQdrant.ts:229-230 | the closing fence found is the first occurrence at or after the body's start |
| JsString.SplitJoin | backend/src/connections/dbQdrant.ts:68 | splitting a newline join whose parts hold no newline gives the parts back |
| Engine.Error.Message | backend/src/connections/dbQdrant.ts:64-66 | every error the engine throws carries a non-empty message ("No data found", "No question generated", "No response", the TypeError of `text!.trim()`) |
| Engine.SelectPhase | backend/src/connections/dbQdrant.ts:80 | the phase test `previousChats.length <= 4`; its properties are `PhaseBoundary` and `PhaseMonotone` |
| Engine.PhaseBoundary | backend/src/connections/dbQdrant.ts:80 | histories of 0 and 4 turns get the personal-background prompt, 5 turns the technical one |
| Engine.PhaseMonotone | backend/src/connections/dbQdrant.ts:80 | a longer history never goes back from the technical to the personal-background phase |
| Engine.FormatHistory | backend/src/connections/dbQdrant.ts:73-78 | the `Q{i+1}: … / A{i+1}: …` transcript, printed again by the same template at lines 189-191; its properties are `HistoryIsLines`, `HistoryStart`, `HistoryAppend`, `HistoryDeterminesTurns` and `HistoryOrderCollision` |
| Engine.HistoryIsLines | backend/src/connections/dbQdrant.ts:73-78 | the history is the newline join of `Q{i+1}: query` and `A{i+1}: response` lines, in turn order |
| Engine.HistoryStart | backend/src/connections/dbQdrant.ts:73-78 | the history is empty exactly when there are no turns, and otherwise begins with `Q1: ` |
| Engine.HistoryAppend | backend/src/connections/dbQdrant.ts:73-78 | one more turn adds one newline and one block numbered one past the earlier turns |
| Engine.HistoryDeterminesTurns | backend/src/connections/dbQdrant.ts:73-78 | single-line turns are recovered from the history: equal histories mean equal questions and response texts, in order |
| Engine.HistoryOrderCollision | backend/src/connections/dbQdrant.ts:73-78 | with a multi-line question, two different turn orders print the same history |
| Engine.RetrieveContext | backend/src/connections/dbQdrant.ts:60-68 | an empty scroll fails with "No data found"; otherwise the context is the chunk contents joined by newlines, a missing one printing as "" |
| Engine.ContextChunks | backend/src/connections/dbQdrant.ts:68 | the context holds the chunks in scroll order: splitting it at newlines gives them back when none spans lines |
| Engine.PostProcessQuestion | backend/src/connections/dbQdrant.ts:177-183 | the question is the trimmed text; it fails with "No question generated" exactly when the text is missing or all white space, so a question is non-empty with no outer white space |
| Engine.QuestionPrompt | backend/src/connections/dbQdrant.ts:80-168 | the request carries the history; it is the personal-background one exactly when the history has at most 4 turns, and the technical one carries the résumé context |
| Engine.NextQuestion | backend/src/connections/dbQdrant.ts:59-184 | an empty scroll fails with no request sent; otherwise exactly one request, the personal one iff the history has at most 4 turns, the technical one carrying the context, both carrying the history; success iff the reply trims to a non-empty text |
| Engine.JsonMatchAt | backend/src/connections/dbQdrant.ts:229 | the json pattern matches at a position; its properties are `FirstJsonMatch`, `JsonMatchIsPlain` and `ExtractJsonFence` |
| Engine.PlainMatchAt | backend/src/connections/dbQdrant.ts:230 | the plain pattern matches at a position; its properties are `FirstPlainMatch` and `PlainMatchHasTwoFences` |
| Engine.JsonBody | backend/src/connections/dbQdrant.ts:229 | the json capture group; `JsonBodyClean` states that it holds no fence |
| Engine.PlainBody | backend/src/connections/dbQdrant.ts:230 | the plain capture group; `PlainBodyClean` states that it holds no fence |
| Engine.ExtractJson | backend/src/connections/dbQdrant.ts:224-232 | the text handed to `JSON.parse`; its properties are `ExtractEmpty`, `ExtractFenced`, `ExtractUnfenced`, `ExtractPrefersJson`, `ExtractPlainFallback` and `ExtractJsonFence` |
| Engine.FirstJsonMatch | backend/src/connections/dbQdrant.ts:229 | the leftmost position where "```json" (any case) is followed by a closing fence, and no match when there is none |
| Engine.FirstPlainMatch | backend/src/connections/dbQdrant.ts:230 | the leftmost fence that is followed by another fence, and no match when there is none |
| Engine.ExtractEmpty | backend/src/connections/dbQdrant.ts:224-226 | extraction fails, with "No response", exactly when the reply text is missing or empty |
| Engine.BodyHasNoFence | backend/src/connections/dbQdrant.ts:229-230 | a body that ends at the first closing fence holds no fence |
| Engine.JsonBodyClean | backend/src/connections/dbQdrant.ts:229 | the body a json fence captures holds no fence |
| Engine.PlainBodyClean | backend/src/connections/dbQdrant.ts:230 | the body a plain fence pair captures holds no fence |
| Engine.FirstFenceAfter | backend/src/connections/dbQdrant.ts:229-230 | after an opener, a body without backticks is closed by the fence that follows it |
| Engine.ExtractFenced | backend/src/connections/dbQdrant.ts:228-232 | a reply with two non-overlapping fences yields a fenced body, and that body holds no fence |
| Engine.ExtractUnfenced | backend/src/connections/dbQdrant.ts:228-232 | a reply without two non-overlapping fences, in particular one without any fence, is passed on unchanged |
| Engine.ExtractPrefersJson | backend/src/connections/dbQdrant.ts:228-232 | the leftmost json fence supplies the body, wherever the plain fences are |
| Engine.ExtractPlainFallback | backend/src/connections/dbQdrant.ts:230-232 | without a json fence, the leftmost fence pair supplies the body |
| Engine.ExtractJsonFence | backend/src/connections/dbQdrant.ts:229 | a reply that is one "```json" fence, in any letter case, yields its body without the white space that follows the opener |
| Engine.JsonMatchIsPlain | backend/src/connections/dbQdrant.ts:228-230 | a json match is also a plain match at the same position |
| Engine.PlainMatchHasTwoFences | backend/src/connections/dbQdrant.ts:230 | a plain match is a pair of non-overlapping fences |
| Engine.Analysis | backend/src/connections/dbQdrant.ts:186-232 | one request carrying the transcript of the chats; the result is `ExtractJson` of its reply, so the `Extract*` lemmas apply; it fails, with "No response", exactly when the reply text is missing or empty |
| Engine.SameTranscript | backend/src/connections/dbQdrant.ts:189-191 | the analysis transcript is the same string as the question prompt's history for the same chats |
| Engine.AsksClarification | backend/src/connections/dbQdrant.ts:254-256 | the trimmed label is exactly "clarification"; its properties are `ClassifyAnswer`, `ClassifyTrimsLabel` and `ClassifyIsCaseSensitive` |
| Engine.ClassifyAnswer | backend/src/connections/dbQdrant.ts:241-270 | a first request with the question and the reply; a second request, with the question only, exactly when the trimmed label is "clarification"; otherwise the verdict is "answer"; if the second reply has no text the result is the TypeError; a clarified question has no outer white space |
| Engine.ClassifyIsCaseSensitive | backend/src/connections/dbQdrant.ts:256 | the label "Clarification" is an answer, with no second request |
| Engine.ClassifyTrimsLabel | backend/src/connections/dbQdrant.ts:254-266 | "clarification" padded with any white space on either side still leads to the second request, and the verdict is the trimmed rephrasing |
| Engine.ClassifyDependsOnLabel | backend/src/connections/dbQdrant.ts:242-266 | two replies that draw the same label get the same verdict and the same follow-up requests |
| ChatController.ServerError | backend/src/controllers/chat.controller.ts:120-126 | a 500 failure whose message is the error's message, or "Internal server error" when that is empty |
| ChatController.FindChat | backend/src/controllers/chat.controller.ts:59 | the position of the chat with the id, and none exactly when no chat has it |
| ChatController.HistoryFor | backend/src/controllers/chat.controller.ts:102-103 | `Chat.find({ fileId })` in insertion order, never longer than the chats; its properties are `HistoryForMembers`, `HistoryForAppend`, `HistoriesAfterAppend` and `HistoryForAnswer` |
| ChatController.HistoryForMembers | backend/src/controllers/chat.controller.ts:102-103 | the history of a file holds the turn of every chat of that file, and only such turns |
| ChatController.HistoryForAppend | backend/src/controllers/chat.controller.ts:107-110 | a new chat adds its turn at the end of its own file's history and leaves every other file's history as it was |
| ChatController.HistoriesAfterAppend | backend/src/controllers/chat.controller.ts:107-110 | a new chat lengthens its file's history by one and changes no other file's history |
| ChatController.HistoryForAnswer | backend/src/controllers/chat.controller.ts:68-70 | answering a chat keeps every history's length and questions, so the next phase is unchanged |
| ChatController.AppendChatConsistent | backend/src/controllers/chat.controller.ts:107-110 | a new chat with a fresh id, for a stored file, keeps the store consistent |
| ChatController.Store.AnswerQuestion | backend/src/controllers/chat.controller.ts:52-84 | an unknown chat is a 404 "Chat not found" that changes nothing; a known one has its response, and nothing else in the store, replaced by the answer; the reply carries the chat as it was before |
| ChatController.Store.AskQuestionFromPdf | backend/src/controllers/chat.controller.ts:86-127 | an unknown file is a 404 with no request and no change; otherwise the engine gets that file's chats in insertion order; a failure is a 500 with its message and no new chat; a question is stored as exactly one new chat with an empty response; no other file's history changes |
| ChatController.Store.UploadPdfFile | backend/src/controllers/chat.controller.ts:8-50 | a new File is always stored under a fresh id; if indexing fails it stays not uploaded, no Interview is created and the reply is a 500; otherwise it is marked uploaded and one Interview for it, started now and not completed, is created |

## Left out

- `uploadPDFToQdrant` (PDF loading, text splitting, embeddings, collection re-creation) is foreign library code and network I/O. Its outcome is an input (`IndexOutcome`).
- The Gemini `generateContent` calls and the prompt wording are left out. The model is an arbitrary function: requests keep only the data they embed, and transport errors are not modelled.
- The Qdrant scroll is an input sequence of points. The source makes one `scroll` call (`dbQdrant.ts:60-62`) and uses the page it returns, and so does the model; transport errors are not modelled.
- AskQuestionFromPdf: scrolling a collection that does not exist (a File whose indexing failed stays in `files`) makes the client throw, and the handler replies 500 with the client's message. The model takes the points as given and has no outcome for that case.
- `JSON.parse` of the extracted text is a library parser, so `Engine.Analysis` stops at the text it would parse. The code does not check the seven metric keys or the score range, and neither does the model.
- Errors, logging and cast failures are left out: the `console` logging, the re-throw in `getAnalysis`, Mongo cast errors for malformed ids and database failures.
- `fs.unlinkSync` of the uploaded file and the multer upload middleware are file-system and library work.
- The `{ ...updatedFile, interviewId }` body spreads a Mongoose document rather than its fields. The model replies with the file id and the interview id.
- `interview.controller.ts`, authentication, routes, the express set-up and the frontend are outside this core. The mongoose schemas are used only for record shapes and defaults.
- Mongo ObjectIds and timestamps are left out: ids come from one counter, and the File's `userId` and the `createdAt`/`updatedAt` fields are not modelled.
- Concurrent requests are left out: every handler runs to completion on its own. The code does not prevent two unanswered questions in one interview, and the model does not claim it does.
- Dafny strings are sequences of Unicode scalar values, while JavaScript strings are UTF-16 code units. The two differ only for characters outside the Basic Multilingual Plane.
