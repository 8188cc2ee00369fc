/** The voice HTTP endpoints under `/api/voice`: the full upload pipeline, a
    stand-alone text-to-speech call, and the two Qwen conversations (typed text,
    and recorded speech recognised by Qwen3-ASR-Flash first). Remote calls,
    base64 decoding, the clock and file writes are parameters: each stands for
    what the call returned or whether it succeeded. */
module VoiceApi {
  import opened JavaLang
  import opened Wav
  import opened DeviceControl
  import opened Devices
  import opened VectorService
  import opened ChatHistory
  import Pipeline

  const FileMissing: string := "请上传音频文件"
  const TooLargeHead: string := "文件过大，最大 "
  const TextEmpty: string := "text 不能为空"
  const TtsUnavailable: string := "TTS 合成失败，请检查本地 PaddleSpeech 或线上 qwen-api-key"
  const KeyMissing: string := "未配置 DashScope API Key（voice.qwen-api-key）"
  const ChatFailed: string := "调用千问文本接口失败，HTTP 状态："
  const ChatEmpty: string := "千问文本接口未返回内容"
  const AsrFailed: string := "Qwen3-ASR-Flash 识别失败或无结果"
  const QwenRagPrompt: string := "参考以下知识库内容回答用户问题。如知识库无相关内容，可凭自身知识回答。\n\n【知识库】\n"
  const DefaultQwenBase: string := "https://dashscope.aliyuncs.com/compatible-mode"
  const DefaultQwenModel: string := "qwen-plus"
  const CompletionsPath: string := "/v1/chat/completions"
  const QwenMaxTokens: int := 1024
  /** The longest text sent to Qwen-TTS; longer replies are cut. */
  const QwenTtsLimit: nat := 500
  const QwenMode: string := "qwen-text"
  const BytesPerMegabyte: int := 1048576

  /** The configuration the controller reads: the pipeline's own settings plus
      the upload limit and the Qwen chat endpoint and model. */
  datatype Settings = Settings(cfg: Pipeline.Config, maxUploadSize: int, qwenBaseUrl: Option<string>,
                               qwenModel: Option<string>)

  /** What `buildBaseUrl` reads from the servlet request. */
  datatype HttpRequest = HttpRequest(scheme: string, serverName: string, port: int, contextPath: string)

  /** The answers of the endpoints. `Uploaded` carries the pipeline's response
      body; `ServerError` is an exception that leaves the controller (Spring
      answers 500). */
  datatype Reply =
    | Uploaded(status: int, body: Pipeline.Response)
    | Refused(status: int, error: string)
    | Spoken(audioUrl: string, filename: string)
    | Answered(text: string, localAudioUrl: Option<string>)
    | ServerError

  // ---------------------------------------------------------------- helpers

  /** The port a URL leaves out: 80 for http, 443 for https. */
  predicate DefaultPort(req: HttpRequest) {
    (req.scheme == "http" && req.port == 80) || (req.scheme == "https" && req.port == 443)
  }

  /** `buildBaseUrl`: scheme, host, the port unless it is the default one, and
      the context path. */
  function BaseUrl(req: HttpRequest): (url: string)
    ensures StartsWith(url, req.scheme + "://" + req.serverName) && EndsWith(url, req.contextPath)
    ensures |url| == |req.scheme| + 3 + |req.serverName| + |req.contextPath|
                     + (if DefaultPort(req) then 0 else 1 + |IntToString(req.port)|)
  {
    var head := req.scheme + "://" + req.serverName;
    var url := if DefaultPort(req) then head + req.contextPath
               else head + ":" + IntToString(req.port) + req.contextPath;
    assert url[..|head|] == head;
    assert url[|url| - |req.contextPath|..] == req.contextPath;
    url
  }

  /** The port appears in the base URL exactly when it is not the default one. */
  lemma BaseUrlOmitsDefaultPort(req: HttpRequest)
    ensures |BaseUrl(req)| == |req.scheme| + 3 + |req.serverName| + |req.contextPath| <==> DefaultPort(req)
  {
    if req.port < 0 {
      assert |IntToString(req.port)| == 1 + |NatToString(-req.port)|;
    }
  }

  /** The controller's own `isBlank`: null, or nothing left after `trim`. */
  predicate ControllerIsBlank(s: Option<string>) {
    s.None? || Trim(s.value) == []
  }

  /** It means null or made only of units up to U+0020. */
  lemma ControllerIsBlankMeaning(s: string)
    ensures ControllerIsBlank(Some(s)) <==> forall i | 0 <= i < |s| :: IsTrimSpace(s[i])
  {
    TrimEmptyIffAllTrimSpace(s);
  }

  /** That test and `String.isBlank` disagree: a control character is blank
      to the first only... */
  lemma ControlCharacterBlankToTrimOnly()
    ensures ControllerIsBlank(Some("\U{0001}")) && !IsBlank("\U{0001}")
  {
    var s := "\U{0001}";
    assert |s| == 1 && s[0] == '\U{0001}';
    ControllerIsBlankMeaning(s);
    assert !IsWhitespace(s[0]);
  }

  /** ... and an ideographic space to the second only. */
  lemma IdeographicSpaceBlankToIsBlankOnly()
    ensures !ControllerIsBlank(Some("\U{3000}")) && IsBlank("\U{3000}")
  {
    var s := "\U{3000}";
    assert |s| == 1 && s[0] == '\U{3000}';
    ControllerIsBlankMeaning(s);
    assert !IsTrimSpace(s[0]);
  }

  /** Java's `/` on longs truncates toward zero. */
  function TruncDiv(a: int, d: int): int
    requires d > 0
  {
    if a >= 0 then a / d else -((-a) / d)
  }

  /** `maxUploadSize / 1024 / 1024`: whole megabytes, rounded toward zero. */
  function MegaBytes(size: int): (mb: int)
    ensures size >= 0 ==> 0 <= mb && mb * BytesPerMegabyte <= size < (mb + 1) * BytesPerMegabyte
    ensures size < 0 ==> mb <= 0 && -mb * BytesPerMegabyte <= -size < (-mb + 1) * BytesPerMegabyte
  {
    TruncDiv(TruncDiv(size, 1024), 1024)
  }

  /** The message for an upload over the limit. */
  function TooLarge(maxUploadSize: int): string {
    TooLargeHead + IntToString(MegaBytes(maxUploadSize)) + "MB"
  }

  /** The default limit of 5 MiB is announced as 5MB. */
  lemma DefaultLimitMessage()
    ensures TooLarge(5 * 1024 * 1024) == TooLargeHead + "5MB"
  {
    assert MegaBytes(5 * 1024 * 1024) == 5;
    assert IntToString(5) == "5";
  }

  // ---------------------------------------------------------------- upload and tts

  /** How `upload` answers when the file passes the size checks: 422 with the
      pipeline's error, otherwise 200 with its response. */
  function UploadStatus(resp: Pipeline.Response): int {
    if resp.error.Some? then 422 else 200
  }

  /** `doTts` (behind `POST /tts` and `GET /tts`): a null or blank text is
      refused with 400; a failed synthesis is a 502; otherwise the file name and
      its download address under this server's `/tts/`. */
  function DoTts(cfg: Pipeline.Config, text: Option<string>, req: HttpRequest, dirsOk: bool, fileName: string,
                 inputWritten: bool, localTts: string -> bool, remote: string -> Option<Bytes>, ttsWritten: bool): (r: Reply)
    ensures IsNullOrBlank(text) ==> r == Refused(400, TextEmpty)
    ensures !IsNullOrBlank(text) ==>
              (r.Spoken? <==> Pipeline.Synthesize(cfg, text, dirsOk, fileName, inputWritten, localTts, remote, ttsWritten).Some?)
              && (!r.Spoken? ==> r == Refused(502, TtsUnavailable))
    ensures r.Spoken? ==>
              && r.filename == fileName
              && StartsWith(r.audioUrl, BaseUrl(req))
              && EndsWith(r.audioUrl, "/tts/" + fileName)
  {
    if text.None? || IsBlank(text.value) then Refused(400, TextEmpty)
    else match Pipeline.Synthesize(cfg, text, dirsOk, fileName, inputWritten, localTts, remote, ttsWritten)
      case None => Refused(502, TtsUnavailable)
      case Some(name) =>
        var url := Pipeline.AudioUrl(BaseUrl(req), name);
        assert "/" + ("tts/" + name) == "/tts/" + name;
        Spoken(url, name)
  }

  // ---------------------------------------------------------------- the Qwen chat call

  /** The chat-completions request: endpoint, model, messages, token limit and key. */
  datatype QwenChatRequest = QwenChatRequest(url: string, model: string, messages: seq<Pipeline.Message>,
                                             maxTokens: int, apiKey: string)

  /** What `postForEntity` on the chat endpoint did: it threw (RestTemplate
      throws for a 4xx or 5xx status and for I/O failures), or it answered with a
      status, whether that is 2xx, and the body's first content (`getFirstContent`)
      when the body is not null. */
  datatype ChatCall =
    | ChatThrew
    | ChatAnswered(ok: bool, status: string, body: Option<Option<string>>)

  /** The configured chat base, or the DashScope compatible-mode address when blank. */
  function QwenBase(s: Settings): string {
    if IsNullOrBlank(s.qwenBaseUrl) then DefaultQwenBase else s.qwenBaseUrl.value
  }

  /** The chat endpoint: the base without its trailing '/', then `/v1/chat/completions`. */
  function CompletionsUrl(s: Settings): (url: string)
    ensures EndsWith(url, CompletionsPath)
    ensures EndsWith(QwenBase(s), "/") ==> url == QwenBase(s)[..|QwenBase(s)| - 1] + CompletionsPath
  {
    var b := StripTrailingSlash(QwenBase(s));
    assert (b + CompletionsPath)[|b|..] == CompletionsPath;
    b + CompletionsPath
  }

  /** The configured model, or "qwen-plus" when blank. */
  function ModelName(s: Settings): string {
    if IsNullOrBlank(s.qwenModel) then DefaultQwenModel else s.qwenModel.value
  }

  /** The system prompt: the knowledge-base instruction followed by the context
      when a non-blank context was found, otherwise the plain assistant prompt. */
  function QwenSystemPrompt(context: Option<string>): string {
    if !IsNullOrBlank(context) then QwenRagPrompt + context.value else Pipeline.PlainPrompt
  }

  function QwenRequest(s: Settings, text: string, context: Option<string>, key: string): QwenChatRequest {
    QwenChatRequest(CompletionsUrl(s), ModelName(s), Pipeline.Messages(QwenSystemPrompt(context), text),
                    QwenMaxTokens, key)
  }

  /** The request carries the system prompt and then the user's text; the
      prompt is the knowledge-base one exactly when the context is non-blank,
      and then it ends with the context. */
  lemma QwenRequestShape(s: Settings, text: string, context: Option<string>, key: string)
    ensures var q := QwenRequest(s, text, context, key);
            && |q.messages| == 2
            && q.messages[0].role == "system" && q.messages[1] == Pipeline.Message("user", text)
            && (StartsWith(q.messages[0].content, QwenRagPrompt) <==> !IsNullOrBlank(context))
            && (!IsNullOrBlank(context) ==> EndsWith(q.messages[0].content, context.value))
            && q.maxTokens == QwenMaxTokens && q.apiKey == key
            && EndsWith(q.url, CompletionsPath)
  {
    var p := QwenSystemPrompt(context);
    if !IsNullOrBlank(context) {
      assert p[..|QwenRagPrompt|] == QwenRagPrompt;
      assert p[|p| - |context.value|..] == context.value;
    } else {
      assert |Pipeline.PlainPrompt| < |QwenRagPrompt|;
    }
  }

  // ---------------------------------------------------------------- the Qwen TTS call

  /** The audio fields of a Qwen-TTS answer: `output.audio.data` (base64) and
      `output.audio.url`. */
  datatype TtsResult = TtsResult(base64: Option<string>, url: Option<string>)

  /** What `postForEntity` on the TTS endpoint did: it threw, or it answered
      with a 2xx flag and a body that may be null. */
  datatype TtsCall = TtsThrew | TtsAnswered(ok: bool, body: Option<TtsResult>)

  /** The text sent for synthesis: at most the first 500 units of the reply. */
  function TtsText(text: string): (t: string)
    ensures |t| == Min(|text|, QwenTtsLimit) && t == text[..|t|]
  {
    if |text| > QwenTtsLimit then text[..QwenTtsLimit] else text
  }

  /** `callQwenTts`: nothing for a blank text or key (the controller's own
      blank test); otherwise the audio fields of a 2xx answer with a body.
      Every exception is caught and yields nothing. */
  function QwenTts(text: string, key: string, tts: (string, string) -> TtsCall): (r: Option<TtsResult>)
    ensures r.Some? ==> !ControllerIsBlank(Some(text)) && !ControllerIsBlank(Some(key))
    ensures r.Some? ==> tts(TtsText(text), key) == TtsAnswered(true, r)
  {
    if ControllerIsBlank(Some(text)) || ControllerIsBlank(Some(key)) then None
    else match tts(TtsText(text), key)
      case TtsThrew => None
      case TtsAnswered(ok, body) => if ok then body else None
  }

  // ---------------------------------------------------------------- saving the audio

  /** What saving the synthesised audio next to the local files did, and the
      inputs it depends on: the file name (from the clock and a UUID), whether
      the directory could be created, the base64 decoder (nothing for invalid
      input), the download of an audio URL, and whether the file write succeeded. */
  datatype AudioIo = AudioIo(fileName: string, dirsOk: bool, decode: string -> Option<Bytes>,
                             fetch: string -> FetchCall, written: bool)

  /** What `getForEntity` on the audio URL did: it threw (an invalid URI, a 4xx
      or 5xx status, an I/O failure), or it answered with a 2xx flag and a body. */
  datatype FetchCall = FetchThrew | Fetched(ok: bool, body: Option<Bytes>)

  /** The file was written; nothing was written (the failure was caught or there
      was no audio); or an exception the `catch (IOException)` does not cover
      left the endpoint. */
  datatype SaveOutcome = Saved | NotSaved | Escaped

  /** Whether the TTS answer holds a base64 payload or an audio URL. */
  predicate HasAudio(t: Option<TtsResult>) {
    t.Some? && (!ControllerIsBlank(t.value.base64) || !ControllerIsBlank(t.value.url))
  }

  /** Writing non-empty audio bytes. */
  function Store(audio: Bytes, io: AudioIo): SaveOutcome {
    if |audio| > 0 && io.written then Saved else NotSaved
  }

  /** Saving the audio: the directory first (its failure is caught), then the
      bytes from the base64 payload or else from the URL, then the write.
      An invalid payload or a failed download is not an `IOException`. */
  function SaveAudio(t: Option<TtsResult>, io: AudioIo): (o: SaveOutcome)
    ensures o == Saved ==> HasAudio(t) && io.dirsOk && io.written
    ensures o == Escaped ==> HasAudio(t) && io.dirsOk
  {
    if !HasAudio(t) || !io.dirsOk then NotSaved
    else if !ControllerIsBlank(t.value.base64) then
      match io.decode(t.value.base64.value)
      case None => Escaped
      case Some(audio) => Store(audio, io)
    else
      match io.fetch(t.value.url.value)
      case FetchThrew => Escaped
      case Fetched(ok, body) => if ok && body.Some? then Store(body.value, io) else NotSaved
  }

  /** The base64 payload wins over the URL: with a payload, the URL is never fetched. */
  lemma PayloadBeforeUrl(t: TtsResult, io: AudioIo, fetch: string -> FetchCall)
    requires !ControllerIsBlank(t.base64)
    ensures SaveAudio(Some(t), io) == SaveAudio(Some(t), io.(fetch := fetch))
  {
  }

  // ---------------------------------------------------------------- the Qwen conversation

  /** The answer once the model's reply is known: the trimmed reply, with the
      local audio address when the audio was saved, unless saving escaped. */
  function QwenAnswer(req: HttpRequest, replyText: string, key: string, tts: (string, string) -> TtsCall,
                      io: AudioIo): Reply
  {
    match SaveAudio(QwenTts(replyText, key, tts), io)
    case Escaped => ServerError
    case Saved => Answered(replyText, Some(Pipeline.AudioUrl(BaseUrl(req), io.fileName)))
    case NotSaved => Answered(replyText, None)
  }

  /** `callQwen(text)`: a blank text is refused with 400 and a blank key with
      500 (the knowledge base has been searched by then); then the chat call,
      whose failures are 502 and whose exceptions escape; then the answer. */
  function QwenReply(s: Settings, req: HttpRequest, text: string, context: Option<string>,
                     chat: QwenChatRequest -> ChatCall, tts: (string, string) -> TtsCall, io: AudioIo): Reply
  {
    if IsBlank(text) then Refused(400, TextEmpty)
    else if IsNullOrBlank(s.cfg.apiKey) then Refused(500, KeyMissing)
    else match chat(QwenRequest(s, text, context, s.cfg.apiKey.value))
      case ChatThrew => ServerError
      case ChatAnswered(ok, status, body) =>
        if !ok || body.None? then Refused(502, ChatFailed + status)
        else if IsNullOrBlank(body.value) then Refused(502, ChatEmpty)
        else QwenAnswer(req, Trim(body.value.value), s.cfg.apiKey.value, tts, io)
  }

  /** Once the reply is known: an answer exactly when saving did not escape,
      carrying the reply, and an audio address into this server's `/tts/`
      exactly when the file was written. */
  lemma QwenAnswerCases(req: HttpRequest, replyText: string, key: string, tts: (string, string) -> TtsCall,
                        io: AudioIo)
    ensures var r := QwenAnswer(req, replyText, key, tts, io);
            var o := SaveAudio(QwenTts(replyText, key, tts), io);
            && (r.Answered? <==> o != Escaped)
            && (!r.Answered? ==> r == ServerError)
            && (r.Answered? ==> r.text == replyText && (r.localAudioUrl.Some? <==> o == Saved))
            && (r.Answered? && r.localAudioUrl.Some? ==>
                  StartsWith(r.localAudioUrl.value, BaseUrl(req)) && EndsWith(r.localAudioUrl.value, "/tts/" + io.fileName))
  {
    var o := SaveAudio(QwenTts(replyText, key, tts), io);
    var r := QwenAnswer(req, replyText, key, tts, io);
    if o == Saved {
      var url := Pipeline.AudioUrl(BaseUrl(req), io.fileName);
      assert r == Answered(replyText, Some(url));
      assert "/" + ("tts/" + io.fileName) == "/tts/" + io.fileName;
    } else if o == NotSaved {
      assert r == Answered(replyText, None);
    } else {
      assert r == ServerError;
    }
  }

  /** Whether the chat call gave a 2xx answer with non-blank content. */
  predicate Usable(call: ChatCall) {
    call.ChatAnswered? && call.ok && call.body.Some? && !IsNullOrBlank(call.body.value)
  }

  /** With a non-blank text and key, a text answer needs a 2xx chat answer with
      non-blank content, and such content is answered as its trimmed reply. */
  lemma QwenAnswerShape(s: Settings, req: HttpRequest, text: string, context: Option<string>,
                        chat: QwenChatRequest -> ChatCall, tts: (string, string) -> TtsCall, io: AudioIo)
    requires !IsBlank(text) && !IsNullOrBlank(s.cfg.apiKey)
    ensures var r := QwenReply(s, req, text, context, chat, tts, io);
            var key := s.cfg.apiKey.value;
            var call := chat(QwenRequest(s, text, context, key));
            && (!Usable(call) ==> r.Refused? || r == ServerError)
            && (Usable(call) ==> r == QwenAnswer(req, Trim(call.body.value.value), key, tts, io))
  {
    var key := s.cfg.apiKey.value;
    var call := chat(QwenRequest(s, text, context, key));
    var r := QwenReply(s, req, text, context, chat, tts, io);
    if call.ChatThrew? {
      assert r == ServerError;
    } else if !call.ok || call.body.None? {
      assert r == Refused(502, ChatFailed + call.status);
    } else if IsNullOrBlank(call.body.value) {
      assert r == Refused(502, ChatEmpty);
    } else {
      assert Usable(call);
    }
  }

  /** A usable reply is lost to an exception when its audio must be fetched
      from a URL and the download throws: the answer is a server error, not
      the text alone. */
  lemma DownloadFailureLosesReply(req: HttpRequest, replyText: string, key: string,
                                  tts: (string, string) -> TtsCall, io: AudioIo, t: TtsResult)
    requires QwenTts(replyText, key, tts) == Some(t)
    requires io.dirsOk && ControllerIsBlank(t.base64) && !ControllerIsBlank(t.url)
    requires io.fetch(t.url.value) == FetchThrew
    ensures QwenAnswer(req, replyText, key, tts, io) == ServerError
  {
    assert SaveAudio(Some(t), io) == Escaped;
  }

  /** The history row a Qwen conversation is logged as. */
  function QwenRow(s: Settings, id: int, question: string, answer: string, context: Option<string>): ChatRecord {
    ChatRecord(id, question, Some(answer), Some(QwenMode), Some(Pipeline.SourceLabel(s.cfg)),
               !IsNullOrBlank(context), context)
  }

  // ---------------------------------------------------------------- speech recognition

  /** The Qwen3-ASR-Flash request: the chat endpoint, the audio and the key. */
  datatype AsrRequest = AsrRequest(url: string, audio: Bytes, apiKey: string)

  /** What `callQwenAsr` yields: an escaping exception (RestTemplate's, which
      the `catch (IOException)` does not cover), or the recognised text, null
      when the file could not be read, was empty, or the call was not a 2xx
      answer with a body. */
  datatype Heard = AsrEscaped | HeardText(text: Option<string>)

  function QwenAsr(s: Settings, audio: Bytes, readFails: bool, key: string, asr: AsrRequest -> ChatCall): Heard {
    if readFails || |audio| == 0 then HeardText(None)
    else match asr(AsrRequest(CompletionsUrl(s), audio, key))
      case ChatThrew => AsrEscaped
      case ChatAnswered(ok, _, body) => if ok && body.Some? then HeardText(body.value) else HeardText(None)
  }

  /** Whether an upload's size passes: not empty and within the limit. */
  predicate SizeAccepted(s: Settings, audio: Bytes) {
    0 < |audio| <= s.maxUploadSize
  }

  /** The size refusals `upload` and `uploadAndCallQwen` share, in their order. */
  function SizeRefusal(s: Settings, audio: Bytes): (e: string)
    requires !SizeAccepted(s, audio)
  {
    if |audio| == 0 then FileMissing else TooLarge(s.maxUploadSize)
  }

  /** `uploadAndCallQwen`: the size checks, the key, recognition (an empty or
      blank transcript is a 502), then `callQwen` on the trimmed transcript. */
  function QwenUploadReply(s: Settings, req: HttpRequest, audio: Bytes, readFails: bool, asr: AsrRequest -> ChatCall,
                           context: Option<string>, chat: QwenChatRequest -> ChatCall,
                           tts: (string, string) -> TtsCall, io: AudioIo): Reply
  {
    if !SizeAccepted(s, audio) then Refused(400, SizeRefusal(s, audio))
    else if IsNullOrBlank(s.cfg.apiKey) then Refused(500, KeyMissing)
    else match QwenAsr(s, audio, readFails, s.cfg.apiKey.value, asr)
      case AsrEscaped => ServerError
      case HeardText(t) =>
        if IsNullOrBlank(t) then Refused(502, AsrFailed)
        else QwenReply(s, req, Trim(t.value), context, chat, tts, io)
  }

  /** The transcript the conversation continues with, once recognition succeeded. */
  function Transcript(s: Settings, audio: Bytes, readFails: bool, asr: AsrRequest -> ChatCall): Option<string> {
    if !SizeAccepted(s, audio) || IsNullOrBlank(s.cfg.apiKey) then None
    else match QwenAsr(s, audio, readFails, s.cfg.apiKey.value, asr)
      case AsrEscaped => None
      case HeardText(t) => if IsNullOrBlank(t) then None else Some(Trim(t.value))
  }

  /** A conversation from speech answers only with a recognised, non-blank
      transcript, and then it answers as the typed conversation on that text. */
  lemma QwenUploadAnswersTranscript(s: Settings, req: HttpRequest, audio: Bytes, readFails: bool,
                                    asr: AsrRequest -> ChatCall, context: Option<string>,
                                    chat: QwenChatRequest -> ChatCall, tts: (string, string) -> TtsCall, io: AudioIo)
    ensures var r := QwenUploadReply(s, req, audio, readFails, asr, context, chat, tts, io);
            r.Answered? ==>
              && SizeAccepted(s, audio) && !readFails
              && Transcript(s, audio, readFails, asr).Some?
              && r == QwenReply(s, req, Transcript(s, audio, readFails, asr).value, context, chat, tts, io)
  {
  }

  // ---------------------------------------------------------------- the controller

  class VoiceController {
    const settings: Settings
    const pipeline: Pipeline.VoicePipelineService

    ghost predicate Valid()
      reads pipeline.chat, pipeline.vectors, pipeline.vectors.Backing()
    {
      pipeline.Valid() && pipeline.cfg == settings.cfg
    }

    constructor(settings: Settings, pipeline: Pipeline.VoicePipelineService)
      requires pipeline.Valid() && pipeline.cfg == settings.cfg
      ensures Valid() && this.settings == settings && this.pipeline == pipeline
    {
      this.settings := settings;
      this.pipeline := pipeline;
    }

    /** `upload`: an empty or oversized file is refused with 400 before the
        pipeline runs; otherwise the pipeline's response, with 422 when it
        reports an error. */
    method Upload(audio: Bytes, req: HttpRequest, prefix: string, st: Pipeline.Stages,
                  llm: seq<Pipeline.Message> -> Pipeline.CallResult, localTts: string -> bool,
                  remote: string -> Option<Bytes>, rows: seq<Device>, transport: ControlRequest -> bool,
                  historyFails: bool, vectorWriteFails: bool)
      returns (r: Reply, dispatched: Option<Intent>, ghost context: Option<string>)
      requires Valid()
      modifies pipeline.chat, pipeline.vectors, pipeline.vectors.Backing()
      ensures Valid()
      ensures !SizeAccepted(settings, audio) ==>
                && r == Uploaded(400, Pipeline.Failure(SizeRefusal(settings, audio))) && dispatched.None?
                && pipeline.chat.rows == old(pipeline.chat.rows)
      ensures SizeAccepted(settings, audio) ==>
                var resp := Pipeline.Outcome(settings.cfg, BaseUrl(req), prefix, st, llm, context, localTts, remote);
                r == Uploaded(UploadStatus(resp), resp)
      ensures context.Some? ==>
                && SizeAccepted(settings, audio) && Pipeline.ReachesModel(settings.cfg, st)
                && pipeline.vectors.Retrieved(old(pipeline.vectors.Docs()), settings.cfg.ragTopK,
                                              Pipeline.UserText(st), context.value)
      ensures !SizeAccepted(settings, audio) || r.body.error.Some? || settings.cfg.mock || historyFails
                || IsBlank(r.body.text.GetOr("")) ==>
                pipeline.chat.Unchanged(old(pipeline.chat.rows), old(pipeline.chat.nextId), old(pipeline.vectors.Docs()), old(pipeline.vectors.drawn))
      ensures SizeAccepted(settings, audio) && r.body.error.None? && !settings.cfg.mock && !historyFails
              && !IsBlank(r.body.text.GetOr("")) ==>
                pipeline.chat.Logged(old(pipeline.chat.rows), old(pipeline.chat.nextId), old(pipeline.vectors.Docs()), old(pipeline.vectors.drawn),
                                     r.body.text.GetOr(""), Some(r.body.reply.GetOr("")), Some(Pipeline.ModeLabel(settings.cfg)),
                                     Some(Pipeline.SourceLabel(settings.cfg)), None, vectorWriteFails)
    {
      if |audio| == 0 || |audio| > settings.maxUploadSize {
        return Uploaded(400, Pipeline.Failure(SizeRefusal(settings, audio))), None, None;
      }
      var resp;
      resp, dispatched, context := pipeline.Process(BaseUrl(req), prefix, st, llm, localTts, remote, rows, transport,
                                                     historyFails, vectorWriteFails);
      r := Uploaded(UploadStatus(resp), resp);
    }

    /** `callQwen`: with RAG on, the knowledge base is searched for the text
        first; the conversation is logged exactly when it answers, unless the
        history write fails. */
    method CallQwen(text: string, req: HttpRequest, chat: QwenChatRequest -> ChatCall,
                    tts: (string, string) -> TtsCall, io: AudioIo, historyFails: bool, vectorWriteFails: bool)
      returns (r: Reply, ghost context: Option<string>)
      requires Valid()
      modifies pipeline.chat, pipeline.vectors, pipeline.vectors.Backing()
      ensures Valid()
      ensures r == QwenReply(settings, req, text, context, chat, tts, io)
      ensures !IsBlank(text) ==> (context.Some? <==> settings.cfg.ragEnabled)
      ensures context.Some? && |old(pipeline.vectors.Docs())| == 0 ==> context == Some("")
      ensures context.Some? ==>
                pipeline.vectors.Retrieved(old(pipeline.vectors.Docs()), settings.cfg.ragTopK, Some(text), context.value)
      ensures !r.Answered? || historyFails ==> pipeline.chat.Unchanged(old(pipeline.chat.rows), old(pipeline.chat.nextId), old(pipeline.vectors.Docs()), old(pipeline.vectors.drawn))
      ensures r.Answered? && !historyFails ==>
                pipeline.chat.Logged(old(pipeline.chat.rows), old(pipeline.chat.nextId), old(pipeline.vectors.Docs()), old(pipeline.vectors.drawn),
                                     text, Some(r.text), Some(QwenMode), Some(Pipeline.SourceLabel(settings.cfg)),
                                     context, vectorWriteFails)
      ensures r.Answered? && !historyFails && !pipeline.chat.RollsBack(text, Some(r.text), vectorWriteFails) ==>
                pipeline.chat.rows == old(pipeline.chat.rows) + [QwenRow(settings, old(pipeline.chat.nextId), text, r.text, context)]
    {
      if IsBlank(text) {
        return Refused(400, TextEmpty), None;
      }
      var ctx: Option<string> := None;
      if settings.cfg.ragEnabled {
        var c, _ := pipeline.vectors.BuildRagContext(Some(text), settings.cfg.ragTopK);
        ctx := Some(c);
      }
      context := ctx;
      r := Converse(text, ctx, req, chat, tts, io, historyFails, vectorWriteFails);
    }

    /** `callQwen` once the context is known: the key check, the chat call and,
        when it gives usable content, the answer. */
    method Converse(text: string, context: Option<string>, req: HttpRequest, chat: QwenChatRequest -> ChatCall,
                    tts: (string, string) -> TtsCall, io: AudioIo, historyFails: bool, vectorWriteFails: bool)
      returns (r: Reply)
      requires Valid() && !IsBlank(text)
      modifies pipeline.chat, pipeline.vectors, pipeline.vectors.Backing()
      ensures Valid()
      ensures r == QwenReply(settings, req, text, context, chat, tts, io)
      ensures !r.Answered? || historyFails ==> pipeline.chat.Unchanged(old(pipeline.chat.rows), old(pipeline.chat.nextId), old(pipeline.vectors.Docs()), old(pipeline.vectors.drawn))
      ensures r.Answered? && !historyFails ==>
                pipeline.chat.Logged(old(pipeline.chat.rows), old(pipeline.chat.nextId), old(pipeline.vectors.Docs()), old(pipeline.vectors.drawn),
                                     text, Some(r.text), Some(QwenMode), Some(Pipeline.SourceLabel(settings.cfg)),
                                     context, vectorWriteFails)
      ensures r.Answered? && !historyFails && !pipeline.chat.RollsBack(text, Some(r.text), vectorWriteFails) ==>
                pipeline.chat.rows == old(pipeline.chat.rows) + [QwenRow(settings, old(pipeline.chat.nextId), text, r.text, context)]
    {
      var key := settings.cfg.apiKey;
      if key.None? || IsBlank(key.value) {
        return Refused(500, KeyMissing);
      }
      var call := chat(QwenRequest(settings, text, context, key.value));
      match call
      case ChatThrew =>
        return ServerError;
      case ChatAnswered(ok, status, body) =>
        if !ok || body.None? {
          return Refused(502, ChatFailed + status);
        }
        if body.value.None? || IsBlank(body.value.value) {
          return Refused(502, ChatEmpty);
        }
        QwenAnswerShape(settings, req, text, context, chat, tts, io);
        r := Respond(text, context, req, Trim(body.value.value), key.value, tts, io, historyFails, vectorWriteFails);
    }

    /** The second half of `callQwen`: speech for the reply, the log entry,
        the answer. */
    method Respond(text: string, context: Option<string>, req: HttpRequest, replyText: string, key: string,
                 tts: (string, string) -> TtsCall, io: AudioIo, historyFails: bool, vectorWriteFails: bool)
      returns (r: Reply)
      requires Valid() && !IsBlank(text)
      modifies pipeline.chat, pipeline.vectors, pipeline.vectors.Backing()
      ensures Valid()
      ensures r == QwenAnswer(req, replyText, key, tts, io)
      ensures r.Answered? ==> r.text == replyText
      ensures !r.Answered? || historyFails ==> pipeline.chat.Unchanged(old(pipeline.chat.rows), old(pipeline.chat.nextId), old(pipeline.vectors.Docs()), old(pipeline.vectors.drawn))
      ensures r.Answered? && !historyFails ==>
                pipeline.chat.Logged(old(pipeline.chat.rows), old(pipeline.chat.nextId), old(pipeline.vectors.Docs()), old(pipeline.vectors.drawn),
                                     text, Some(replyText), Some(QwenMode), Some(Pipeline.SourceLabel(settings.cfg)),
                                     context, vectorWriteFails)
      ensures r.Answered? && !historyFails && !pipeline.chat.RollsBack(text, Some(replyText), vectorWriteFails) ==>
                pipeline.chat.rows == old(pipeline.chat.rows) + [QwenRow(settings, old(pipeline.chat.nextId), text, replyText, context)]
    {
      var saved := SaveAudio(QwenTts(replyText, key, tts), io);
      if saved == Escaped {
        return ServerError;
      }
      if !historyFails {
        pipeline.chat.LogChat(Some(text), Some(replyText), Some(QwenMode), Some(Pipeline.SourceLabel(settings.cfg)),
                              context, vectorWriteFails);
      }
      if saved == Saved {
        r := Answered(replyText, Some(Pipeline.AudioUrl(BaseUrl(req), io.fileName)));
      } else {
        r := Answered(replyText, None);
      }
    }

    /** `uploadAndCallQwen`: the checks and recognition, then `callQwen` on the
        trimmed transcript, logged as that conversation is. */
    method UploadAndCallQwen(audio: Bytes, readFails: bool, asr: AsrRequest -> ChatCall, req: HttpRequest,
                             chat: QwenChatRequest -> ChatCall, tts: (string, string) -> TtsCall, io: AudioIo,
                             historyFails: bool, vectorWriteFails: bool)
      returns (r: Reply, ghost context: Option<string>)
      requires Valid()
      modifies pipeline.chat, pipeline.vectors, pipeline.vectors.Backing()
      ensures Valid()
      ensures r == QwenUploadReply(settings, req, audio, readFails, asr, context, chat, tts, io)
      ensures context.Some? ==>
                && Transcript(settings, audio, readFails, asr).Some?
                && pipeline.vectors.Retrieved(old(pipeline.vectors.Docs()), settings.cfg.ragTopK,
                                              Transcript(settings, audio, readFails, asr), context.value)
      ensures r.Answered? ==> Transcript(settings, audio, readFails, asr).Some?
      ensures !r.Answered? || historyFails ==> pipeline.chat.Unchanged(old(pipeline.chat.rows), old(pipeline.chat.nextId), old(pipeline.vectors.Docs()), old(pipeline.vectors.drawn))
      ensures r.Answered? && !historyFails ==>
                pipeline.chat.Logged(old(pipeline.chat.rows), old(pipeline.chat.nextId), old(pipeline.vectors.Docs()), old(pipeline.vectors.drawn),
                                     Transcript(settings, audio, readFails, asr).value, Some(r.text), Some(QwenMode),
                                     Some(Pipeline.SourceLabel(settings.cfg)), context, vectorWriteFails)
      ensures r.Answered? && !historyFails
              && !pipeline.chat.RollsBack(Transcript(settings, audio, readFails, asr).value, Some(r.text), vectorWriteFails) ==>
                var question := Transcript(settings, audio, readFails, asr).value;
                pipeline.chat.rows == old(pipeline.chat.rows) + [QwenRow(settings, old(pipeline.chat.nextId), question, r.text, context)]
    {
      if |audio| == 0 || |audio| > settings.maxUploadSize {
        return Refused(400, SizeRefusal(settings, audio)), None;
      }
      var key := settings.cfg.apiKey;
      if key.None? || IsBlank(key.value) {
        return Refused(500, KeyMissing), None;
      }
      var heard := QwenAsr(settings, audio, readFails, key.value, asr);
      if heard.AsrEscaped? {
        return ServerError, None;
      }
      if heard.text.None? || IsBlank(heard.text.value) {
        return Refused(502, AsrFailed), None;
      }
      r, context := CallQwen(Trim(heard.text.value), req, chat, tts, io, historyFails, vectorWriteFails);
    }
  }
}
