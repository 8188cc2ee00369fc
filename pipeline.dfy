/** The voice pipeline: uploaded audio goes through speech recognition, the
    language model (with the knowledge-base context when RAG is on), device
    control, and speech synthesis, and the exchange is logged. The remote calls
    (recognition, the language model, local and online synthesis) are parameters
    whose results the pipeline only inspects; file writes are reduced to their
    success or error message; clocks and random names are a given prefix. */
module Pipeline {
  import opened JavaLang
  import opened Wav
  import opened Devices
  import opened DeviceControl
  import opened VectorService
  import opened ChatHistory

  // ---------------------------------------------------------------- local TTS text

  /** `String.replace(a, b)` for single units. */
  function ReplaceUnit(s: string, a: char, b: char): (r: string)
    ensures |r| == |s| && forall i | 0 <= i < |s| :: r[i] == if s[i] == a then b else s[i]
  {
    seq(|s|, i requires 0 <= i < |s| => if s[i] == a then b else s[i])
  }

  /** What `runTtsLocal` hands to the synthesiser: the first 500 units, with
      double quotes turned into single quotes and line breaks into spaces. */
  function ShapeLocalTtsText(text: string): string {
    var cut := if |text| > TtsMaxInputLength then text[..TtsMaxInputLength] else text;
    ReplaceUnit(ReplaceUnit(ReplaceUnit(cut, '"', '\''), '\r', ' '), '\n', ' ')
  }

  /** The shaped text keeps at most 500 units, contains no double quote and no
      line break, and agrees with the text on every other unit. */
  lemma LocalTtsTextShape(text: string)
    ensures var r := ShapeLocalTtsText(text);
            && |r| == Min(|text|, TtsMaxInputLength)
            && (forall i | 0 <= i < |r| :: r[i] != '"' && r[i] != '\r' && r[i] != '\n')
            && (forall i | 0 <= i < |r| ::
                  if text[i] == '"' then r[i] == '\''
                  else if text[i] == '\r' || text[i] == '\n' then r[i] == ' '
                  else r[i] == text[i])
  {
  }

  // ---------------------------------------------------------------- messages

  datatype Message = Message(role: string, content: string)

  const KnowledgePrompt: string := "严格根据以下【知识库】内容和用户问题作答：仅使用知识库中已有的信息，不要编造、不要猜测。若知识库中无与问题相关的内容，请明确回答「根据当前知识库暂无相关内容」或「不知道」，不要胡说八道。\n\n【知识库】\n"
  const UnsurePrompt: string := "你是一个助手。若无法确定答案，请明确说不知道，不要编造。"
  const PlainPrompt: string := "You are a helpful assistant."

  /** The system prompt `buildMessagesWithRag` chooses; `context` is what the
      knowledge base returned, consulted only with RAG on. */
  function SystemPrompt(ragEnabled: bool, context: Option<string>): string {
    if !ragEnabled then PlainPrompt
    else if !IsNullOrBlank(context) then KnowledgePrompt + context.value
    else UnsurePrompt
  }

  /** Each of the three prompts is chosen in exactly one situation. */
  lemma SystemPromptChoice(ragEnabled: bool, context: Option<string>)
    ensures var p := SystemPrompt(ragEnabled, context);
            && (ragEnabled && !IsNullOrBlank(context) <==> |p| >= |KnowledgePrompt| && p[..|KnowledgePrompt|] == KnowledgePrompt)
            && (ragEnabled && !IsNullOrBlank(context) ==> p[|KnowledgePrompt|..] == context.value)
            && (ragEnabled && IsNullOrBlank(context) <==> p == UnsurePrompt)
            && (!ragEnabled <==> p == PlainPrompt)
  {
    var p := SystemPrompt(ragEnabled, context);
    assert |KnowledgePrompt| > |UnsurePrompt| == |PlainPrompt|;
    assert UnsurePrompt[0] != PlainPrompt[0];
  }

  /** The two messages sent to the model: the system prompt, then the user's text. */
  function Messages(system: string, userText: string): (ms: seq<Message>)
    ensures |ms| == 2 && ms[0].role == "system" && ms[1] == Message("user", userText)
  {
    [Message("system", system), Message("user", userText)]
  }

  // ---------------------------------------------------------------- audio URL

  /** The download address of a synthesised file: the base joined with
      `tts/` and the file name. */
  function AudioUrl(base: string, fileName: string): string {
    JoinUrl(base, "tts/" + fileName)
  }

  // ---------------------------------------------------------------- outcomes

  /** A remote call: what it returned (possibly null), or the message of the
      exception it threw. */
  datatype CallResult = Returned(value: Option<string>) | Threw(message: string)

  /** How the pipeline is configured. */
  datatype Config = Config(mock: bool, local: bool, apiKey: Option<string>, ragEnabled: bool, ragTopK: nat)

  /** The outcomes of the stages that touch the file system or a speech engine. */
  datatype Stages = Stages(
    dirsError: Option<string>,       // creating the temp and TTS directories
    uploadError: Option<string>,     // saving the uploaded file
    asr: CallResult,                 // speech recognition
    inputWriteError: Option<string>, // writing the local TTS input file
    ttsWritten: bool)                // writing the online TTS audio file

  /** `VoiceUploadResponse`: the fields of a success, or just an error. */
  datatype Response = Response(text: Option<string>, reply: Option<string>, audioUrl: Option<string>, error: Option<string>)

  function Failure(message: string): Response {
    Response(None, None, None, Some(message))
  }

  const DirsFailed: string := "创建临时目录失败: "
  const UploadFailed: string := "保存上传文件失败: "
  const NoKey: string := "线上模式请配置 voice.qwen-api-key"
  const NoSpeech: string := "语音识别无结果，请重试"
  const NoReply: string := "大模型无回复"
  const TtsFailed: string := "TTS 合成失败"
  const Failed: string := "处理失败: "

  function MockResponse(base: string): Response {
    Response(Some("（Mock）你好"), Some("（Mock）你好，我是语音助手。"), Some(AudioUrl(base, "mock_reply.wav")), None)
  }

  /** Whether speech synthesis of the spoken reply produced a file: locally the
      synthesiser must succeed on the shaped text; online the merged audio must
      be non-empty and written. */
  predicate Synthesised(cfg: Config, st: Stages, spoken: string, localTts: string -> bool,
                        remote: string -> Option<Bytes>)
  {
    if cfg.local then localTts(ShapeLocalTtsText(spoken))
    else
      var audio := OnlineSpeech(Some(spoken), cfg.apiKey, remote);
      audio.Some? && |audio.value| > 0 && st.ttsWritten
  }

  /** The user's text once recognition has succeeded: the trimmed transcript. */
  function UserText(st: Stages): Option<string> {
    if st.asr.Returned? && !IsNullOrBlank(st.asr.value) then Some(Trim(st.asr.value.value)) else None
  }

  /** Whether the pipeline gets as far as asking the language model. */
  predicate ReachesModel(cfg: Config, st: Stages) {
    !cfg.mock && st.dirsError.None? && st.uploadError.None?
    && (cfg.local || !IsNullOrBlank(cfg.apiKey)) && UserText(st).Some?
  }

  /** What the model answers to the user's text, given the RAG context. */
  function ModelReply(cfg: Config, userText: string, llm: seq<Message> -> CallResult, context: Option<string>): CallResult {
    llm(Messages(SystemPrompt(cfg.ragEnabled, context), userText))
  }

  /** Whether the model gave a usable (non-null, non-blank) reply. */
  predicate Replied(r: CallResult) {
    r.Returned? && !IsNullOrBlank(r.value)
  }

  /** The device-control intent carried by the trimmed reply, if the model replied. */
  function Dispatch(cfg: Config, userText: string, llm: seq<Message> -> CallResult, context: Option<string>): Option<Intent> {
    DispatchOf(ModelReply(cfg, userText, llm, context))
  }

  /** The intent a model reply carries, when the reply is usable. */
  function DispatchOf(r: CallResult): Option<Intent> {
    if Replied(r) then ParseIntent(Some(Trim(r.value.value))) else None
  }

  /** The last stage: synthesis of the spoken reply, then the success response. */
  function AfterReply(cfg: Config, base: string, prefix: string, st: Stages, userText: string, spoken: string,
                      localTts: string -> bool, remote: string -> Option<Bytes>): Response
  {
    if cfg.local && st.inputWriteError.Some? then Failure(Failed + st.inputWriteError.value)
    else if !Synthesised(cfg, st, spoken, localTts, remote) then Failure(TtsFailed)
    else Response(Some(userText), Some(spoken), Some(AudioUrl(base, prefix + ".wav")), None)
  }

  /** The stages after recognition: the model, device control, synthesis. */
  function AfterRecognition(cfg: Config, base: string, prefix: string, st: Stages, userText: string,
                            llm: seq<Message> -> CallResult, context: Option<string>,
                            localTts: string -> bool, remote: string -> Option<Bytes>): Response
  {
    AfterModel(cfg, base, prefix, st, userText, ModelReply(cfg, userText, llm, context), localTts, remote)
  }

  /** The stages after the model answered `reply`: its failure, or device
      control and synthesis of the trimmed reply. */
  function AfterModel(cfg: Config, base: string, prefix: string, st: Stages, userText: string, reply: CallResult,
                      localTts: string -> bool, remote: string -> Option<Bytes>): Response
  {
    if reply.Threw? then Failure(Failed + reply.message)
    else if IsNullOrBlank(reply.value) then Failure(NoReply)
    else AfterReply(cfg, base, prefix, st, userText, StripDeviceControlLine(Some(Trim(reply.value.value))), localTts, remote)
  }

  /** The response `process` gives, stage by stage and in the order the stages
      run; `context` is the knowledge base's answer when RAG is on. */
  function Outcome(cfg: Config, base: string, prefix: string, st: Stages, llm: seq<Message> -> CallResult,
                   context: Option<string>, localTts: string -> bool, remote: string -> Option<Bytes>): Response
  {
    if cfg.mock then MockResponse(base)
    else if st.dirsError.Some? then Failure(DirsFailed + st.dirsError.value)
    else if st.uploadError.Some? then Failure(UploadFailed + st.uploadError.value)
    else if !cfg.local && IsNullOrBlank(cfg.apiKey) then Failure(NoKey)
    else if st.asr.Threw? then Failure(Failed + st.asr.message)
    else if IsNullOrBlank(st.asr.value) then Failure(NoSpeech)
    else AfterRecognition(cfg, base, prefix, st, Trim(st.asr.value.value), llm, context, localTts, remote)
  }

  /** Mock mode answers before any file work, whatever the stages would do. */
  lemma MockAnswersFirst(cfg: Config, base: string, prefix: string, st: Stages, llm: seq<Message> -> CallResult,
                         context: Option<string>, localTts: string -> bool, remote: string -> Option<Bytes>)
    requires cfg.mock
    ensures Outcome(cfg, base, prefix, st, llm, context, localTts, remote) == MockResponse(base)
    ensures MockResponse(base).error.None? && !ReachesModel(cfg, st)
  {
  }

  /** Online mode without a key fails before recognition: the transcript, the
      model and synthesis cannot change the answer. */
  lemma MissingKeyStopsBeforeRecognition(cfg: Config, base: string, prefix: string, st: Stages, st': Stages,
                                         llm: seq<Message> -> CallResult, context: Option<string>,
                                         localTts: string -> bool, remote: string -> Option<Bytes>)
    requires !cfg.mock && !cfg.local && IsNullOrBlank(cfg.apiKey)
    requires st.dirsError.None? && st.uploadError.None?
    requires st'.dirsError.None? && st'.uploadError.None?
    ensures Outcome(cfg, base, prefix, st, llm, context, localTts, remote) == Failure(NoKey)
    ensures Outcome(cfg, base, prefix, st, llm, context, localTts, remote)
         == Outcome(cfg, base, prefix, st', llm, context, localTts, remote)
    ensures !ReachesModel(cfg, st)
  {
  }

  /** Outside mock mode the pipeline succeeds exactly when every stage does; a
      success carries the trimmed transcript, the trimmed reply without its
      device-control marker, and the address of the file named after the prefix. */
  lemma SuccessShape(cfg: Config, base: string, prefix: string, st: Stages, llm: seq<Message> -> CallResult,
                     context: Option<string>, localTts: string -> bool, remote: string -> Option<Bytes>)
    requires !cfg.mock
    ensures var r := Outcome(cfg, base, prefix, st, llm, context, localTts, remote);
            r.error.None? <==>
              && ReachesModel(cfg, st)
              && var reply := ModelReply(cfg, UserText(st).value, llm, context);
              && Replied(reply)
              && !(cfg.local && st.inputWriteError.Some?)
              && Synthesised(cfg, st, StripDeviceControlLine(Some(Trim(reply.value.value))), localTts, remote)
              && r.text == UserText(st)
              && r.reply == Some(StripDeviceControlLine(Some(Trim(reply.value.value))))
              && r.audioUrl == Some(AudioUrl(base, prefix + ".wav"))
  {
  }

  /** A reply that is nothing but a device-control marker strips to the empty
      text: the device has been switched, but online synthesis of nothing
      fails and the caller gets the synthesis error. */
  lemma EmptySpokenReplyFailsOnline(cfg: Config, base: string, prefix: string, st: Stages, userText: string,
                                    localTts: string -> bool, remote: string -> Option<Bytes>)
    requires !cfg.local
    ensures AfterReply(cfg, base, prefix, st, userText, "", localTts, remote) == Failure(TtsFailed)
  {
    assert IsBlank("");
  }

  // ---------------------------------------------------------------- standalone synthesis

  /** `synthesize(text)`: the file name when synthesis succeeded, else nothing.
      It does not look at mock mode. */
  function Synthesize(cfg: Config, text: Option<string>, dirsOk: bool, fileName: string, inputWritten: bool,
                      localTts: string -> bool, remote: string -> Option<Bytes>, ttsWritten: bool): (r: Option<string>)
  {
    if IsNullOrBlank(text) || !dirsOk then None
    else if cfg.local then
      if inputWritten && localTts(ShapeLocalTtsText(text.value)) then Some(fileName) else None
    else if IsNullOrBlank(cfg.apiKey) then None
    else
      var audio := OnlineSpeech(text, cfg.apiKey, remote);
      if audio.Some? && |audio.value| > 0 && ttsWritten then Some(fileName) else None
  }

  /** A name comes back only for a non-blank text, and only online with a key
      or locally; when the synthesiser accepts everything, a non-blank text
      always gets its name locally. */
  lemma SynthesizeGuards(cfg: Config, text: Option<string>, dirsOk: bool, fileName: string, inputWritten: bool,
                         localTts: string -> bool, remote: string -> Option<Bytes>, ttsWritten: bool)
    ensures var r := Synthesize(cfg, text, dirsOk, fileName, inputWritten, localTts, remote, ttsWritten);
            && (r.Some? ==> r.value == fileName && !IsNullOrBlank(text) && dirsOk)
            && (r.Some? && !cfg.local ==> !IsNullOrBlank(cfg.apiKey) && ttsWritten)
            && (cfg.local && !IsNullOrBlank(text) && dirsOk && inputWritten && (forall s :: localTts(s)) ==> r == Some(fileName))
  {
  }

  // ---------------------------------------------------------------- the service

  function ModeLabel(cfg: Config): string {
    if cfg.local then "voice-local" else "voice-online"
  }

  function SourceLabel(cfg: Config): string {
    if cfg.ragEnabled then "RAG-知识库" else "LLM"
  }

  /** The history row a successful exchange is logged as: no RAG context is ever
      recorded, so the row says RAG was not used. */
  function LoggedRow(cfg: Config, id: int, userText: string, spoken: string): ChatRecord {
    ChatRecord(id, userText, Some(spoken), Some(ModeLabel(cfg)), Some(SourceLabel(cfg)), false, None)
  }

  class VoicePipelineService {
    const cfg: Config
    const vectors: VectorStoreService
    const chat: ChatHistoryService

    ghost predicate Valid()
      reads chat, vectors, vectors.Backing()
    {
      chat.vectors == vectors && vectors.Valid()
    }

    constructor(cfg: Config, chat: ChatHistoryService)
      requires chat.Valid()
      ensures Valid() && this.cfg == cfg && this.chat == chat
    {
      this.cfg := cfg;
      this.chat := chat;
      this.vectors := chat.vectors;
    }

    /** Device control on the model's reply: dispatch the parsed intent, if any,
        to the addressed devices (the count is discarded), and speak the reply
        without its marker. */
    method ExecuteDeviceControlAndStrip(reply: string, rows: seq<Device>, transport: ControlRequest -> bool)
      returns (spoken: string, dispatched: Option<Intent>)
      requires Valid()
      ensures Valid()
      ensures dispatched == ParseIntent(Some(reply))
      ensures spoken == StripDeviceControlLine(Some(reply))
    {
      dispatched := ParseIntent(Some(reply));
      if dispatched.Some? {
        var _ := SwitchRoom(dispatched.value, rows, transport);
      }
      spoken := StripDeviceControlLine(Some(reply));
    }

    /** `executeByRoom` for an intent: the number of the room's devices whose
        switch request the transport accepted. */
    method SwitchRoom(intent: Intent, rows: seq<Device>, transport: ControlRequest -> bool)
      returns (switched: nat)
      requires Valid()
      ensures Valid()
      ensures switched == CountAccepted(Targets(rows, intent.room), intent.turnOn, transport)
    {
      switched := ExecuteByRoom(rows, intent.room, intent.turnOn, transport);
    }

    /** `buildMessagesWithRag`: with RAG on, the context is what the vector
        service retrieves for the text (an empty context when nothing qualifies). */
    method BuildMessagesWithRag(userText: string) returns (messages: seq<Message>, context: Option<string>)
      requires Valid()
      ensures Valid()
      ensures messages == Messages(SystemPrompt(cfg.ragEnabled, context), userText)
      ensures cfg.ragEnabled <==> context.Some?
      ensures cfg.ragEnabled && (IsBlank(userText) || |vectors.Docs()| == 0) ==> context == Some("")
      ensures context.Some? ==> vectors.Retrieved(vectors.Docs(), cfg.ragTopK, Some(userText), context.value)
    {
      var system: string;
      if cfg.ragEnabled {
        var c, _ := vectors.BuildRagContext(Some(userText), cfg.ragTopK);
        context := Some(c);
        system := if !IsBlank(c) then KnowledgePrompt + c else UnsurePrompt;
      } else {
        context := None;
        system := PlainPrompt;
      }
      messages := [Message("system", system), Message("user", userText)];
    }

    /** Synthesis and logging once the reply is known. A success is logged; a
        failure of the log (`historyFails`) leaves the answer alone. */
    method Finish(base: string, prefix: string, st: Stages, userText: string, spoken: string,
                  localTts: string -> bool, remote: string -> Option<Bytes>, historyFails: bool, vectorWriteFails: bool)
      returns (resp: Response)
      requires Valid()
      modifies chat, vectors, vectors.Backing()
      ensures Valid()
      ensures resp == AfterReply(cfg, base, prefix, st, userText, spoken, localTts, remote)
      ensures resp.error.None? ==> resp.text == Some(userText) && resp.reply == Some(spoken)
      ensures resp.error.Some? || historyFails || IsBlank(userText) ==>
                chat.Unchanged(old(chat.rows), old(chat.nextId), old(vectors.Docs()), old(vectors.drawn))
      ensures resp.error.None? && !historyFails && !IsBlank(userText) ==>
                chat.Logged(old(chat.rows), old(chat.nextId), old(vectors.Docs()), old(vectors.drawn), userText,
                            Some(spoken), Some(ModeLabel(cfg)), Some(SourceLabel(cfg)), None, vectorWriteFails)
      ensures resp.error.None? && !historyFails && !IsBlank(userText) && !chat.RollsBack(userText, Some(spoken), vectorWriteFails) ==>
                chat.rows == old(chat.rows) + [LoggedRow(cfg, old(chat.nextId), userText, spoken)]
    {
      if cfg.local {
        if st.inputWriteError.Some? {
          return Failure(Failed + st.inputWriteError.value);
        }
        if !localTts(ShapeLocalTtsText(spoken)) {
          return Failure(TtsFailed);
        }
      } else {
        var audio := SynthesizeOnlineToBytes(Some(spoken), cfg.apiKey, remote);
        if audio.None? || |audio.value| == 0 || !st.ttsWritten {
          return Failure(TtsFailed);
        }
      }
      var audioUrl := AudioUrl(base, prefix + ".wav");
      if !historyFails {
        chat.LogChat(Some(userText), Some(spoken), Some(ModeLabel(cfg)), Some(SourceLabel(cfg)), None, vectorWriteFails);
      }
      resp := Response(Some(userText), Some(spoken), Some(audioUrl), None);
    }

    /** The model, device control, synthesis and logging for a recognised text. */
    method Answer(base: string, prefix: string, st: Stages, userText: string, llm: seq<Message> -> CallResult,
                  localTts: string -> bool, remote: string -> Option<Bytes>,
                  rows: seq<Device>, transport: ControlRequest -> bool, historyFails: bool, vectorWriteFails: bool)
      returns (resp: Response, dispatched: Option<Intent>, ghost context: Option<string>)
      requires Valid()
      modifies chat, vectors, vectors.Backing()
      ensures Valid()
      ensures resp == AfterRecognition(cfg, base, prefix, st, userText, llm, context, localTts, remote)
      ensures resp.error.None? ==> resp.text == Some(userText)
      ensures dispatched == Dispatch(cfg, userText, llm, context)
      ensures cfg.ragEnabled <==> context.Some?
      ensures context.Some? ==> vectors.Retrieved(old(vectors.Docs()), cfg.ragTopK, Some(userText), context.value)
      ensures resp.error.Some? || historyFails || IsBlank(userText) ==>
                chat.Unchanged(old(chat.rows), old(chat.nextId), old(vectors.Docs()), old(vectors.drawn))
      ensures resp.error.None? && !historyFails && !IsBlank(userText) ==>
                chat.Logged(old(chat.rows), old(chat.nextId), old(vectors.Docs()), old(vectors.drawn), userText,
                            Some(resp.reply.GetOr("")), Some(ModeLabel(cfg)), Some(SourceLabel(cfg)), None, vectorWriteFails)
      ensures resp.error.None? && !historyFails && !IsBlank(userText) && !chat.RollsBack(userText, Some(resp.reply.GetOr("")), vectorWriteFails) ==>
                chat.rows == old(chat.rows) + [LoggedRow(cfg, old(chat.nextId), userText, resp.reply.GetOr(""))]
    {
      ghost var docs := vectors.Docs();
      var messages;
      messages, context := BuildMessagesWithRag(userText);
      assert vectors.Docs() == docs;
      var answer := llm(messages);
      resp, dispatched := HandleReply(base, prefix, st, userText, answer, localTts, remote, rows, transport,
                                      historyFails, vectorWriteFails);
    }

    /** The model's answer in hand: a failure or a blank reply ends the request;
        otherwise device control runs on the trimmed reply and the rest of it
        is spoken and logged. */
    method HandleReply(base: string, prefix: string, st: Stages, userText: string, answer: CallResult,
                       localTts: string -> bool, remote: string -> Option<Bytes>,
                       rows: seq<Device>, transport: ControlRequest -> bool, historyFails: bool, vectorWriteFails: bool)
      returns (resp: Response, dispatched: Option<Intent>)
      requires Valid()
      modifies chat, vectors, vectors.Backing()
      ensures Valid()
      ensures resp == AfterModel(cfg, base, prefix, st, userText, answer, localTts, remote)
      ensures resp.error.None? ==> resp.text == Some(userText)
      ensures dispatched == DispatchOf(answer)
      ensures resp.error.Some? || historyFails || IsBlank(userText) ==>
                chat.Unchanged(old(chat.rows), old(chat.nextId), old(vectors.Docs()), old(vectors.drawn))
      ensures resp.error.None? && !historyFails && !IsBlank(userText) ==>
                chat.Logged(old(chat.rows), old(chat.nextId), old(vectors.Docs()), old(vectors.drawn), userText,
                            Some(resp.reply.GetOr("")), Some(ModeLabel(cfg)), Some(SourceLabel(cfg)), None, vectorWriteFails)
      ensures resp.error.None? && !historyFails && !IsBlank(userText) && !chat.RollsBack(userText, Some(resp.reply.GetOr("")), vectorWriteFails) ==>
                chat.rows == old(chat.rows) + [LoggedRow(cfg, old(chat.nextId), userText, resp.reply.GetOr(""))]
    {
      if answer.Threw? {
        return Failure(Failed + answer.message), None;
      }
      if answer.value.None? || IsBlank(answer.value.value) {
        return Failure(NoReply), None;
      }
      var reply := Trim(answer.value.value);
      var spoken;
      ghost var backing := vectors.Backing();
      assert allocated(backing);
      spoken, dispatched := ExecuteDeviceControlAndStrip(reply, rows, transport);
      assert unchanged(backing);
      resp := Finish(base, prefix, st, userText, spoken, localTts, remote, historyFails, vectorWriteFails);
      if resp.error.None? && !historyFails && !IsBlank(userText) {
        assert resp.reply.GetOr("") == spoken;
      }
    }

    /** `process`: each stage runs only when the previous ones succeeded, and
        the first failure is the answer. */
    method Process(base: string, prefix: string, st: Stages, llm: seq<Message> -> CallResult,
                   localTts: string -> bool, remote: string -> Option<Bytes>,
                   rows: seq<Device>, transport: ControlRequest -> bool, historyFails: bool, vectorWriteFails: bool)
      returns (resp: Response, dispatched: Option<Intent>, ghost context: Option<string>)
      requires Valid()
      modifies chat, vectors, vectors.Backing()
      ensures Valid()
      ensures resp == Outcome(cfg, base, prefix, st, llm, context, localTts, remote)
      ensures dispatched == if ReachesModel(cfg, st) then Dispatch(cfg, UserText(st).value, llm, context) else None
      ensures context.Some? ==>
                ReachesModel(cfg, st) && vectors.Retrieved(old(vectors.Docs()), cfg.ragTopK, UserText(st), context.value)
      ensures resp.error.Some? || cfg.mock || historyFails || IsBlank(resp.text.GetOr("")) ==>
                chat.Unchanged(old(chat.rows), old(chat.nextId), old(vectors.Docs()), old(vectors.drawn))
      ensures resp.error.None? && !cfg.mock && !historyFails && !IsBlank(resp.text.GetOr("")) ==>
                chat.Logged(old(chat.rows), old(chat.nextId), old(vectors.Docs()), old(vectors.drawn), resp.text.GetOr(""),
                            Some(resp.reply.GetOr("")), Some(ModeLabel(cfg)), Some(SourceLabel(cfg)), None, vectorWriteFails)
      ensures resp.error.None? && !cfg.mock && !historyFails && !IsBlank(resp.text.GetOr("")) && !chat.RollsBack(resp.text.GetOr(""), Some(resp.reply.GetOr("")), vectorWriteFails) ==>
                chat.rows == old(chat.rows) + [LoggedRow(cfg, old(chat.nextId), resp.text.GetOr(""), resp.reply.GetOr(""))]
    {
      dispatched, context := None, None;
      if cfg.mock {
        return MockResponse(base), None, None;
      }
      if st.dirsError.Some? {
        return Failure(DirsFailed + st.dirsError.value), None, None;
      }
      if st.uploadError.Some? {
        return Failure(UploadFailed + st.uploadError.value), None, None;
      }
      if !cfg.local && (cfg.apiKey.None? || IsBlank(cfg.apiKey.value)) {
        return Failure(NoKey), None, None;
      }
      if st.asr.Threw? {
        return Failure(Failed + st.asr.message), None, None;
      }
      var heard := st.asr.value;
      if heard.None? || IsBlank(heard.value) {
        return Failure(NoSpeech), None, None;
      }
      assert ReachesModel(cfg, st) && UserText(st) == Some(Trim(heard.value));
      resp, dispatched, context := Answer(base, prefix, st, Trim(heard.value), llm, localTts, remote,
                                          rows, transport, historyFails, vectorWriteFails);
    }
  }
}
