/** Chat logging: each question and answer is saved as a history row and then
    written into the vector store as a knowledge document. The history table is
    a list of rows with auto-increment ids; its creation timestamp is a clock
    reading and is not part of this model. */
module ChatHistory {
  import opened JavaLang
  import opened VectorTypes
  import opened Embedding
  import opened Ranking
  import opened VectorService

  /** One row of the `chat_history` table. */
  datatype ChatRecord = ChatRecord(
    id: int,
    question: string,
    answer: Option<string>,
    mode: Option<string>,
    answerSource: Option<string>,
    ragUsed: bool,
    ragContext: Option<string>)

  const QuestionLabel: string := "问："
  const AnswerLabel: string := "\n答："
  const ChatCategory: string := "对话记录"

  /** The keys of the chat metadata, in insertion order, before the optional "ragUsed". */
  const ChatMetaKeys: seq<string> := ["source", "chatId", "mode", "answerSource", "category"]

  /** The document text: the trimmed question after its label and, only for a
      non-blank answer, the trimmed answer after its own label on the next line. */
  function ChatText(question: string, answer: Option<string>): (text: string)
    ensures var head := QuestionLabel + Trim(question);
            StartsWith(text, head)
            && (IsNullOrBlank(answer) <==> |text| == |head|)
            && (!IsNullOrBlank(answer) ==> text[|head|..] == AnswerLabel + Trim(answer.value))
  {
    var head := QuestionLabel + Trim(question);
    if IsNullOrBlank(answer) then head else head + AnswerLabel + Trim(answer.value)
  }

  /** The document metadata: source "chat", the saved row's id, mode and answer
      source defaulting to "", the category, and "ragUsed" only when it holds. */
  function ChatMetadata(chatId: int, mode: Option<string>, answerSource: Option<string>, ragUsed: bool): (m: Metadata)
    ensures |m| == if ragUsed then 6 else 5
  {
    [("source", MStr("chat")),
     ("chatId", MInt(chatId)),
     ("mode", MStr(mode.GetOr(""))),
     ("answerSource", MStr(answerSource.GetOr(""))),
     ("category", MStr(ChatCategory))]
    + (if ragUsed then [("ragUsed", MBool(true))] else [])
  }

  /** The fixed entries: source "chat", the saved row's id and the category. */
  lemma ChatMetadataFixed(chatId: int, mode: Option<string>, answerSource: Option<string>, ragUsed: bool)
    ensures var m := ChatMetadata(chatId, mode, answerSource, ragUsed);
            && Get(m, "source") == MStr("chat")
            && Get(m, "chatId") == MInt(chatId)
            && Get(m, "category") == MStr(ChatCategory)
  {
    var m := ChatMetadata(chatId, mode, answerSource, ragUsed);
    GetFirst(m, 0);
    assert m[0].0 != "chatId";
    GetFirst(m, 1);
    assert m[0].0 != "category" && m[1].0 != "category" && m[2].0 != "category" && m[3].0 != "category";
    GetFirst(m, 4);
  }

  /** A null mode or answer source reads as "". */
  lemma ChatMetadataDefaults(chatId: int, mode: Option<string>, answerSource: Option<string>, ragUsed: bool)
    ensures var m := ChatMetadata(chatId, mode, answerSource, ragUsed);
            && Get(m, "mode") == MStr(mode.GetOr(""))
            && Get(m, "answerSource") == MStr(answerSource.GetOr(""))
  {
    var m := ChatMetadata(chatId, mode, answerSource, ragUsed);
    assert m[0].0 != "mode" && m[1].0 != "mode";
    GetFirst(m, 2);
    assert m[0].0 != "answerSource" && m[1].0 != "answerSource" && m[2].0 != "answerSource";
    GetFirst(m, 3);
  }

  /** The "ragUsed" entry is present, and true, exactly when RAG was used. */
  lemma ChatMetadataRagFlag(chatId: int, mode: Option<string>, answerSource: Option<string>, ragUsed: bool)
    ensures Get(ChatMetadata(chatId, mode, answerSource, ragUsed), "ragUsed") == if ragUsed then MBool(true) else MNull
  {
    var m := ChatMetadata(chatId, mode, answerSource, ragUsed);
    NoRagKey(m[..5]);
    if ragUsed {
      GetFirst(m, 5);
    } else {
      assert m[..5] == m;
    }
  }

  /** The metadata keys, in insertion order: "ragUsed" comes last and only when it holds. */
  lemma ChatMetadataKeys(chatId: int, mode: Option<string>, answerSource: Option<string>, ragUsed: bool)
    ensures Keys(ChatMetadata(chatId, mode, answerSource, ragUsed)) == ChatMetaKeys + (if ragUsed then ["ragUsed"] else [])
  {
  }

  lemma NoRagKey(m: Metadata)
    requires |m| == 5 && m[0].0 == "source" && m[1].0 == "chatId" && m[2].0 == "mode"
    requires m[3].0 == "answerSource" && m[4].0 == "category"
    ensures forall j | 0 <= j < 5 :: m[j].0 != "ragUsed"
  {
  }

  /** A chat document is filed under "chat" and under neither device source, so
      a device sync, which keeps every other document whose id it does not
      draw again, keeps it unchanged. */
  lemma ChatDocSurvivesDeviceSync(before: Store, after: Store, drawnIds: seq<string>, k: string,
                                  chatId: int, mode: Option<string>, answerSource: Option<string>, ragUsed: bool)
    requires k in before && before[k].metadata == Some(ChatMetadata(chatId, mode, answerSource, ragUsed))
    requires KeepsOutside(before - DeviceDocKeys(before), after, drawnIds) && k !in drawnIds
    ensures HasSource(before[k], "chat") && k !in DeviceDocKeys(before)
    ensures k in after && after[k] == before[k]
  {
    ChatMetadataFixed(chatId, mode, answerSource, ragUsed);
    assert k in before - DeviceDocKeys(before);
  }

  /** The blank test and `trim` disagree: a question made of a control character
      passes the blank test, yet its document text carries no question. */
  lemma ControlCharacterQuestion()
    ensures !IsNullOrBlank(Some("\U{0001}")) && ChatText("\U{0001}", None) == QuestionLabel
  {
    assert !IsWhitespace("\U{0001}"[0]);
    assert Trim("\U{0001}") == [] by {
      TrimEmptyIffAllTrimSpace("\U{0001}");
    }
  }

  class ChatHistoryService {
    /** The rows saved so far, oldest first. */
    var rows: seq<ChatRecord>
    /** The id the database assigns to the next row. */
    var nextId: int
    const vectors: VectorStoreService

    ghost predicate Valid()
      reads this, vectors, vectors.Backing()
    {
      vectors.Valid()
    }

    constructor(vectors: VectorStoreService, firstId: int)
      requires vectors.Valid()
      ensures Valid() && this.vectors == vectors && rows == [] && nextId == firstId
    {
      this.vectors := vectors;
      rows := [];
      nextId := firstId;
    }

    /** Whether logging `question` is rolled back: the store is the MySQL
        table, the chat text embeds so its insert is attempted, and that insert
        throws. The insert joins the transaction of `logChat`, which the
        exception marks for rollback, so the saved row goes too. */
    predicate RollsBack(question: string, answer: Option<string>, vectorWriteFails: bool) {
      && vectorWriteFails
      && vectors.backend.Mysql?
      && Embed(vectors.gateway, Some(ChatText(question, answer))).Some?
    }

    /** Neither the history nor the store changed. */
    ghost predicate Unchanged(rows0: seq<ChatRecord>, nextId0: int, docs0: Store, drawn0: nat)
      reads this, vectors, vectors.Backing()
    {
      rows == rows0 && nextId == nextId0 && vectors.Docs() == docs0 && vectors.drawn == drawn0
    }

    /** The history and the store after logging the non-blank `question`, given
        them before. The row takes the next id (consumed even by a rollback) and
        stays unless the vector write rolled it back. A text that embeds draws
        one id, under which its document, tagged with the row's id, is stored
        unless the write failed. A text that does not embed changes no
        document. */
    ghost predicate Logged(rows0: seq<ChatRecord>, nextId0: int, docs0: Store, drawn0: nat,
                           question: string, answer: Option<string>, mode: Option<string>,
                           answerSource: Option<string>, ragContext: Option<string>, vectorWriteFails: bool)
      reads this, vectors, vectors.Backing()
    {
      var ragUsed := !IsNullOrBlank(ragContext);
      var text := ChatText(question, answer);
      var emb := Embed(vectors.gateway, Some(text));
      var id := NewId(vectors.uuids(drawn0));
      && nextId == nextId0 + 1
      && rows == (if RollsBack(question, answer, vectorWriteFails) then rows0
                  else rows0 + [ChatRecord(nextId0, question, answer, mode, answerSource, ragUsed, ragContext)])
      && vectors.drawn == (if emb.Some? then drawn0 + 1 else drawn0)
      && vectors.Docs() == (if emb.None? || RollsBack(question, answer, vectorWriteFails) then docs0
                            else docs0[id := VectorDocument(Some(id), Some(text), emb,
                                                            Some(ChatMetadata(nextId0, mode, answerSource, ragUsed)))])
    }

    /** `logChat`: a null or blank question is ignored. Otherwise the row is
        saved with the inputs unchanged and "RAG used" meaning a non-blank
        context, then the chat document is added to the vector store. The
        vector write's failure (`vectorWriteFails`) is caught, but on the MySQL
        store it has already marked the transaction for rollback: the row is
        not kept and the commit throws to the caller. The in-memory store's
        write does not fail. */
    method LogChat(question: Option<string>, answer: Option<string>, mode: Option<string>,
                   answerSource: Option<string>, ragContext: Option<string>, vectorWriteFails: bool)
      requires Valid()
      modifies this, vectors, vectors.Backing()
      ensures Valid()
      ensures IsNullOrBlank(question) ==> Unchanged(old(rows), old(nextId), old(vectors.Docs()), old(vectors.drawn))
      ensures !IsNullOrBlank(question) ==>
                Logged(old(rows), old(nextId), old(vectors.Docs()), old(vectors.drawn),
                       question.value, answer, mode, answerSource, ragContext, vectorWriteFails)
      ensures !IsNullOrBlank(question) && !RollsBack(question.value, answer, vectorWriteFails) ==>
                rows == old(rows) + [ChatRecord(old(nextId), question.value, answer, mode, answerSource,
                                                !IsNullOrBlank(ragContext), ragContext)]
      ensures old(vectors.SourcesConsistent()) ==> vectors.SourcesConsistent()
    {
      if question.None? || IsBlank(question.value) {
        return;
      }
      var ragUsed := !IsNullOrBlank(ragContext);
      var saved := ChatRecord(nextId, question.value, answer, mode, answerSource, ragUsed, ragContext);
      var before := rows;
      rows := rows + [saved];
      nextId := nextId + 1;
      var text := ChatText(question.value, answer);
      var meta := ChatMetadata(saved.id, mode, answerSource, ragUsed);
      if vectorWriteFails && vectors.backend.Mysql? {
        var threw := vectors.AddDocumentFailingInsert(Some(text));
        if threw {
          rows := before;
        }
        assert threw == RollsBack(question.value, answer, vectorWriteFails);
      } else {
        var _ := vectors.AddDocument(Some(text), Some(meta));
        assert !RollsBack(question.value, answer, vectorWriteFails);
      }
    }
  }
}
