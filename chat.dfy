/**
 * The request handlers of `backend/src/controllers/chat.controller.ts` over an
 * in-memory store of the File, Chat and Interview collections.
 *
 * Document identifiers are drawn from one counter, so a new record's id is
 * never in use. The vector index, the language model and the clock are
 * inputs: the points the index scroll returns, a `Generator`, the outcome of
 * indexing an upload and the time of the upload.
 */
module ChatController {
  import opened Wrappers
  import opened Engine

  type Id = nat

  /** A Chat document: one question of an interview and the candidate's response ("" until answered). */
  datatype Chat = Chat(id: Id, fileId: Id, query: string, response: string)

  /** A File document; `isUploaded` becomes true once the résumé is indexed. */
  datatype FileRecord = FileRecord(name: string, path: string, isDeleted: bool, isUploaded: bool)

  /** An Interview document, created for a File whose indexing succeeded. */
  datatype InterviewRecord = InterviewRecord(fileId: Id, startTime: int, endTime: Option<int>, isCompleted: bool)

  /** The `data` of a JSON reply. */
  datatype Data =
    | NoData
    | AskedData(question: string, chatId: Id)
    | AnsweredData(previous: Chat)
    | UploadedData(fileId: Id, interviewId: Id)

  /** A JSON reply: the HTTP status, `success`, `message` and `data`. */
  datatype Reply = Reply(status: int, success: bool, message: string, data: Data)

  /** What indexing an uploaded résumé did: succeeded, or threw an error with this message. */
  datatype IndexOutcome = Indexed | IndexFailed(message: string)

  /** The reply of every handler's `catch`: status 500 and the error's message, or a fixed text when it has none. */
  function ServerError(message: string): (r: Reply)
    ensures r.status == 500 && !r.success && r.data == NoData
    ensures r.message != []
    ensures message != [] ==> r.message == message
  {
    Reply(500, false, if message == "" then "Internal server error" else message, NoData)
  }

  /** `Chat.findById`: the position of the chat with this id, if there is one. */
  function FindChat(chats: seq<Chat>, id: Id): (r: Option<nat>)
    ensures r.Some? ==> r.value < |chats| && chats[r.value].id == id
    ensures r.None? ==> forall i :: 0 <= i < |chats| ==> chats[i].id != id
  {
    if chats == [] then None
    else if chats[0].id == id then Some(0)
    else
      match FindChat(chats[1..], id)
      case None => None
      case Some(k) => Some(k + 1)
  }

  /** A chat as it is handed to the engine (`select("query response")`). */
  function TurnOf(c: Chat): Turn {
    Turn(c.query, Some(c.response))
  }

  /** `Chat.find({ fileId })`: the turns of the chats of this file, in insertion order. */
  function HistoryFor(chats: seq<Chat>, fileId: Id): (r: seq<Turn>)
    ensures |r| <= |chats|
  {
    if chats == [] then []
    else (if chats[0].fileId == fileId then [TurnOf(chats[0])] else []) + HistoryFor(chats[1..], fileId)
  }

  /** The history of a file holds the turn of every chat of that file and of no other chat. */
  lemma {:induction false} HistoryForMembers(chats: seq<Chat>, fileId: Id)
    ensures forall i :: 0 <= i < |chats| && chats[i].fileId == fileId ==> TurnOf(chats[i]) in HistoryFor(chats, fileId)
    ensures forall t :: t in HistoryFor(chats, fileId) ==>
      exists i :: 0 <= i < |chats| && chats[i].fileId == fileId && TurnOf(chats[i]) == t
  {
    if chats != [] {
      var head := if chats[0].fileId == fileId then [TurnOf(chats[0])] else [];
      HistoryForMembers(chats[1..], fileId);
      forall i | 0 < i < |chats| && chats[i].fileId == fileId
        ensures TurnOf(chats[i]) in HistoryFor(chats, fileId)
      {
        assert chats[1..][i - 1] == chats[i];
      }
      forall t | t in HistoryFor(chats[1..], fileId)
        ensures exists i :: 0 <= i < |chats| && chats[i].fileId == fileId && TurnOf(chats[i]) == t
      {
        var k :| 0 <= k < |chats[1..]| && chats[1..][k].fileId == fileId && TurnOf(chats[1..][k]) == t;
        assert chats[k + 1] == chats[1..][k];
      }
      assert HistoryFor(chats, fileId) == head + HistoryFor(chats[1..], fileId);
    }
  }

  /** A new chat extends the history of its own file by its turn and leaves every other history alone. */
  lemma {:induction false} HistoryForAppend(chats: seq<Chat>, c: Chat, fileId: Id)
    ensures HistoryFor(chats + [c], fileId) ==
      HistoryFor(chats, fileId) + (if c.fileId == fileId then [TurnOf(c)] else [])
  {
    var tail := if c.fileId == fileId then [TurnOf(c)] else [];
    if chats == [] {
      assert [] + [c] == [c];
      assert HistoryFor([c], fileId) == tail + HistoryFor([], fileId);
    } else {
      var rest := chats[1..];
      var head := if chats[0].fileId == fileId then [TurnOf(chats[0])] else [];
      assert (chats + [c])[0] == chats[0] && (chats + [c])[1..] == rest + [c];
      assert HistoryFor(chats + [c], fileId) == head + HistoryFor(rest + [c], fileId);
      HistoryForAppend(rest, c, fileId);
      assert head + (HistoryFor(rest, fileId) + tail) == (head + HistoryFor(rest, fileId)) + tail;
    }
  }

  /** `HistoryForAppend` for every file at once. */
  lemma HistoriesAfterAppend(chats: seq<Chat>, c: Chat)
    ensures |HistoryFor(chats + [c], c.fileId)| == |HistoryFor(chats, c.fileId)| + 1
    ensures forall f :: f != c.fileId ==> HistoryFor(chats + [c], f) == HistoryFor(chats, f)
  {
    HistoryForAppend(chats, c, c.fileId);
    forall f | f != c.fileId
      ensures HistoryFor(chats + [c], f) == HistoryFor(chats, f)
    {
      HistoryForAppend(chats, c, f);
    }
  }

  /** Answering a chat changes only its response: every history keeps its length and its questions. */
  lemma {:induction false} HistoryForAnswer(chats: seq<Chat>, i: nat, answer: string, fileId: Id)
    requires i < |chats|
    ensures var h, h' := HistoryFor(chats, fileId), HistoryFor(chats[i := chats[i].(response := answer)], fileId);
      && |h'| == |h|
      && forall k :: 0 <= k < |h| ==> h'[k].query == h[k].query
  {
    var updated := chats[i := chats[i].(response := answer)];
    if i > 0 {
      assert updated[1..] == chats[1..][i - 1 := chats[1..][i - 1].(response := answer)];
      HistoryForAnswer(chats[1..], i - 1, answer, fileId);
    } else {
      assert updated[1..] == chats[1..];
    }
  }

  /**
   * Every id is below the counter and chat ids are distinct; every chat
   * belongs to a stored file; every interview belongs to a stored file whose
   * indexing succeeded.
   */
  ghost predicate Consistent(chats: seq<Chat>, files: map<Id, FileRecord>, interviews: map<Id, InterviewRecord>, nextId: Id) {
    && (forall i :: 0 <= i < |chats| ==> chats[i].id < nextId && chats[i].fileId in files)
    && (forall i, j :: 0 <= i < j < |chats| ==> chats[i].id != chats[j].id)
    && (forall f :: f in files ==> f < nextId)
    && (forall v :: v in interviews ==>
          v < nextId && interviews[v].fileId in files && files[interviews[v].fileId].isUploaded)
  }

  /** A new chat with the next id, for a stored file, keeps the store consistent. */
  lemma AppendChatConsistent(chats: seq<Chat>, files: map<Id, FileRecord>, interviews: map<Id, InterviewRecord>, nextId: Id, c: Chat)
    requires Consistent(chats, files, interviews, nextId)
    requires c.id == nextId && c.fileId in files
    ensures Consistent(chats + [c], files, interviews, nextId + 1)
  {
    var cs := chats + [c];
    forall i, j | 0 <= i < j < |cs| ensures cs[i].id != cs[j].id {
      if j == |chats| {
        assert cs[i] == chats[i];
      } else {
        assert cs[i] == chats[i] && cs[j] == chats[j];
      }
    }
  }

  /** The File, Chat and Interview collections. */
  class Store {
    var chats: seq<Chat>
    var files: map<Id, FileRecord>
    var interviews: map<Id, InterviewRecord>
    var nextId: Id

    /** The store satisfies `Consistent`. */
    ghost predicate Valid()
      reads this
    {
      Consistent(chats, files, interviews, nextId)
    }

    constructor ()
      ensures Valid()
      ensures chats == [] && files == map[] && interviews == map[]
    {
      chats, files, interviews, nextId := [], map[], map[], 0;
    }

    /**
     * `answerQuestion`: an unknown chat id is a 404 that changes nothing;
     * otherwise that chat's response becomes the answer and nothing else
     * changes. The reply carries the chat as it was before the update.
     */
    method AnswerQuestion(chatId: Id, answer: string) returns (reply: Reply)
      requires Valid()
      modifies this
      ensures Valid()
      ensures files == old(files) && interviews == old(interviews) && nextId == old(nextId)
      ensures FindChat(old(chats), chatId).None? ==>
        reply == Reply(404, false, "Chat not found", NoData) && chats == old(chats)
      ensures FindChat(old(chats), chatId).Some? ==>
        var i := FindChat(old(chats), chatId).value;
        && chats == old(chats)[i := old(chats)[i].(response := answer)]
        && reply == Reply(200, true, "Answer saved successfully", AnsweredData(old(chats)[i]))
    {
      var found := FindChat(chats, chatId);
      if found.None? {
        return Reply(404, false, "Chat not found", NoData);
      }
      var i := found.value;
      var previous := chats[i];
      chats := chats[i := previous.(response := answer)];
      reply := Reply(200, true, "Answer saved successfully", AnsweredData(previous));
    }

    /**
     * `askQuestionFromPdf`: an unknown file is a 404 with no request to the
     * language model; otherwise the engine is given the file's chats in
     * insertion order, a failure is a 500 with its message and no new chat,
     * and a question is stored as exactly one new chat with an empty response.
     */
    method AskQuestionFromPdf(fileId: Id, points: seq<Point>, gen: Generator) returns (reply: Reply, calls: seq<Prompt>)
      requires Valid()
      modifies this
      ensures Valid()
      ensures files == old(files) && interviews == old(interviews)
      ensures fileId !in old(files) ==>
        && reply == Reply(404, false, "File not found", NoData) && calls == []
        && chats == old(chats) && nextId == old(nextId)
      ensures fileId in old(files) ==>
        var step := NextQuestion(points, HistoryFor(old(chats), fileId), gen);
        && calls == step.calls
        && (step.result.Failure? ==>
              reply == ServerError(step.result.error.Message()) && chats == old(chats) && nextId == old(nextId))
        && (step.result.Success? ==>
              && chats == old(chats) + [Chat(old(nextId), fileId, step.result.value, "")]
              && nextId == old(nextId) + 1
              && reply == Reply(200, true, "Question asked successfully", AskedData(step.result.value, old(nextId))))
      ensures |HistoryFor(chats, fileId)| == |HistoryFor(old(chats), fileId)| + (if reply.status == 200 then 1 else 0)
      ensures forall f :: f != fileId ==> HistoryFor(chats, f) == HistoryFor(old(chats), f)
    {
      if fileId !in files {
        return Reply(404, false, "File not found", NoData), [];
      }
      var previousChats := HistoryFor(chats, fileId);
      var step := NextQuestion(points, previousChats, gen);
      calls := step.calls;
      if step.result.Failure? {
        return ServerError(step.result.error.Message()), calls;
      }
      var question := step.result.value;
      var chat := Chat(nextId, fileId, question, "");
      HistoriesAfterAppend(chats, chat);
      AppendChatConsistent(chats, files, interviews, nextId, chat);
      chats := chats + [chat];
      nextId := nextId + 1;
      reply := Reply(200, true, "Question asked successfully", AskedData(question, chat.id));
    }

    /**
     * `uploadPdfFile`: the File record is created, not uploaded, before the
     * résumé is indexed. If indexing fails that File stays not uploaded, no
     * Interview is created and the reply is a 500. Otherwise the File is
     * marked uploaded and then an Interview for it is created.
     */
    method UploadPdfFile(name: string, path: string, indexing: IndexOutcome, now: int) returns (reply: Reply)
      requires Valid()
      modifies this
      ensures Valid()
      ensures chats == old(chats)
      ensures old(nextId) !in old(files)
      ensures files == old(files)[old(nextId) := FileRecord(name, path, false, indexing.Indexed?)]
      ensures indexing.IndexFailed? ==>
        && interviews == old(interviews) && nextId == old(nextId) + 1
        && reply == ServerError(indexing.message)
      ensures indexing.Indexed? ==>
        && old(nextId) + 1 !in old(interviews)
        && interviews == old(interviews)[old(nextId) + 1 := InterviewRecord(old(nextId), now, None, false)]
        && nextId == old(nextId) + 2
        && reply == Reply(200, true, "File uploaded successfully", UploadedData(old(nextId), old(nextId) + 1))
    {
      var fileId := nextId;
      nextId := nextId + 1;
      files := files[fileId := FileRecord(name, path, false, false)];
      if indexing.IndexFailed? {
        return ServerError(indexing.message);
      }
      files := files[fileId := files[fileId].(isUploaded := true)];
      var interviewId := nextId;
      nextId := nextId + 1;
      interviews := interviews[interviewId := InterviewRecord(fileId, now, None, false)];
      reply := Reply(200, true, "File uploaded successfully", UploadedData(fileId, interviewId));
    }
  }
}
