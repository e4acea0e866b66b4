/** The upload handler: check that a named file came with the request, read
    it into text, cut the text into chunks of 2000 characters and relay them
    to the chat service under the caller's conversation. */
module Upload {
  import opened Wrappers
  import opened Text
  import opened Chunker
  import opened Extraction
  import opened Relay

  /** A file part of the request: its name and its bytes. */
  datatype UploadedFile = UploadedFile(filename: string, content: seq<byte>)

  /** Why an upload gets no message. The first three are the caller's fault,
      the last is the chat service's. */
  datatype UploadError =
    | NoFile
    | NoFileSelected
    | Unreadable(cause: ExtractError)
    | RemoteFailure(message: string)
  {
    /** The `error` text the handler answers with. */
    function Message(): string
    {
      match this
      case NoFile => "Nenhum arquivo enviado"
      case NoFileSelected => "Nenhum arquivo selecionado"
      case Unreadable(cause) => cause.Message()
      case RemoteFailure(message) => message
    }
  }

  /** The relay's result as the handler reports it. */
  function AsRelayResult(r: Result<string, UploadError>): Result<string, string>
    requires r.Success? || r.error.RemoteFailure?
  {
    if r.Success? then Success(r.value) else Failure(r.error.message)
  }

  /** What the handler promises. No request is sent when the file is
      missing, has no name, has an unsupported name or cannot be read;
      otherwise the chunks of its text are relayed under the given
      conversation, with the relay's promise about what is sent and what is
      answered. */
  ghost predicate UploadOutcome(file: Option<UploadedFile>, chatbotId: Option<string>, conversationId: Option<string>,
                                parsePdf: PdfParser, decode: Decoder, send: Service,
                                r: Result<string, UploadError>, sent: seq<Request>)
  {
    match file
    case None => r == Failure(NoFile) && sent == []
    case Some(upload) =>
      if upload.filename == "" then r == Failure(NoFileSelected) && sent == []
      else
        match Extracted(upload.filename, upload.content, parsePdf, decode)
        case Failure(cause) => r == Failure(Unreadable(cause)) && sent == []
        case Success(text) =>
          (r.Success? || r.error.RemoteFailure?)
          && RelayOutcome(SplitText(text, DefaultMaxLength), chatbotId, conversationId, send, AsRelayResult(r), sent)
  }

  /** Handles one upload: validation, extraction, chunking, relay. */
  method HandleUpload(file: Option<UploadedFile>, chatbotId: Option<string>, conversationId: Option<string>,
                      parsePdf: PdfParser, decode: Decoder, send: Service)
    returns (r: Result<string, UploadError>, sent: seq<Request>)
    ensures UploadOutcome(file, chatbotId, conversationId, parsePdf, decode, send, r, sent)
  {
    if file.None? {
      return Failure(NoFile), [];
    }
    var upload := file.value;
    if upload.filename == "" {
      return Failure(NoFileSelected), [];
    }
    var extracted := ExtractText(upload.filename, upload.content, parsePdf, decode);
    if extracted.Failure? {
      return Failure(Unreadable(extracted.error)), [];
    }
    var parts := SplitText(extracted.value, DefaultMaxLength);
    var relayed;
    relayed, sent := RelayChunks(parts, chatbotId, conversationId, send);
    r := match relayed
         case Success(message) => Success(message)
         case Failure(message) => Failure(RemoteFailure(message));
  }

  /** The error text a failed upload answers with: a fixed text for a
      missing file, an empty name and an unsupported name; the processing
      prefix and the reader's description for an unreadable file; the relay
      prefix and the service's description for a refused request. */
  lemma FailureMessage(file: Option<UploadedFile>, chatbotId: Option<string>, conversationId: Option<string>,
                       parsePdf: PdfParser, decode: Decoder, send: Service,
                       r: Result<string, UploadError>, sent: seq<Request>)
    requires UploadOutcome(file, chatbotId, conversationId, parsePdf, decode, send, r, sent)
    requires r.Failure?
    ensures file.None? ==> r.error.Message() == "Nenhum arquivo enviado"
    ensures file.Some? && file.value.filename == "" ==> r.error.Message() == "Nenhum arquivo selecionado"
    ensures file.Some? && file.value.filename != ""
            && !EndsWith(file.value.filename, ".pdf") && !EndsWith(file.value.filename, ".txt") ==>
              r.error.Message() == "Formato de arquivo n\U{E3}o suportado. Envie um arquivo .pdf ou .txt."
    ensures file.Some? && file.value.filename != "" && EndsWith(file.value.filename, ".pdf")
            && parsePdf(file.value.content).Failure? ==>
              r.error.Message() == "Erro ao processar o arquivo: " + parsePdf(file.value.content).error
    ensures file.Some? && file.value.filename != "" && !EndsWith(file.value.filename, ".pdf")
            && EndsWith(file.value.filename, ".txt") && decode(file.value.content).Failure? ==>
              r.error.Message() == "Erro ao processar o arquivo: " + decode(file.value.content).error
    ensures r.error.RemoteFailure? ==>
              sent != [] && r.error.Message() == ErrorPrefix + send(|sent| - 1, sent[|sent| - 1]).error
  {
    if file.Some? && file.value.filename != "" {
      match Extracted(file.value.filename, file.value.content, parsePdf, decode)
      case Failure(cause) =>
      case Success(text) =>
        assert RelayOutcome(SplitText(text, DefaultMaxLength), chatbotId, conversationId, send, AsRelayResult(r), sent);
    }
  }

  /** A named file whose name ends in neither `.pdf` nor `.txt` is refused as
      unsupported, and no request is sent. */
  lemma UnsupportedSendsNothing(file: UploadedFile, chatbotId: Option<string>, conversationId: Option<string>,
                                parsePdf: PdfParser, decode: Decoder, send: Service,
                                r: Result<string, UploadError>, sent: seq<Request>)
    requires file.filename != "" && !EndsWith(file.filename, ".pdf") && !EndsWith(file.filename, ".txt")
    requires UploadOutcome(Some(file), chatbotId, conversationId, parsePdf, decode, send, r, sent)
    ensures r == Failure(Unreadable(UnsupportedFormat)) && sent == []
  {
  }

  /** A readable file with no text sends nothing and answers the empty message. */
  lemma EmptyTextSendsNothing(file: UploadedFile, chatbotId: Option<string>, conversationId: Option<string>,
                              parsePdf: PdfParser, decode: Decoder, send: Service,
                              r: Result<string, UploadError>, sent: seq<Request>)
    requires file.filename != "" && Extracted(file.filename, file.content, parsePdf, decode) == Success("")
    requires UploadOutcome(Some(file), chatbotId, conversationId, parsePdf, decode, send, r, sent)
    ensures r == Success("") && sent == []
  {
    RelayEmpty(chatbotId, conversationId, send, AsRelayResult(r), sent);
  }

  /** The chunk a request carries behind the preamble. */
  function CarriedChunk(request: Request): string
  {
    if |Preamble| <= |request.content| then request.content[|Preamble|..] else request.content
  }

  /** After a successful upload, every request starts with the preamble and
      carries the caller's conversation, and the chunks the requests carry,
      each at most 2000 characters, join back into exactly the file's text. */
  lemma SuccessSendsWholeText(file: UploadedFile, chatbotId: Option<string>, conversationId: Option<string>,
                              parsePdf: PdfParser, decode: Decoder, send: Service,
                              r: Result<string, UploadError>, sent: seq<Request>)
    requires file.filename != "" && Extracted(file.filename, file.content, parsePdf, decode).Success?
    requires UploadOutcome(Some(file), chatbotId, conversationId, parsePdf, decode, send, r, sent)
    requires r.Success?
    ensures forall i :: 0 <= i < |sent| ==>
              |Preamble| <= |sent[i].content| && sent[i].content[..|Preamble|] == Preamble
              && |CarriedChunk(sent[i])| <= DefaultMaxLength
              && sent[i].conversationId == conversationId
    ensures Concat(seq(|sent|, i requires 0 <= i < |sent| => CarriedChunk(sent[i])))
            == Extracted(file.filename, file.content, parsePdf, decode).value
  {
    var text := Extracted(file.filename, file.content, parsePdf, decode).value;
    var chunks := SplitText(text, DefaultMaxLength);
    assert RelayOutcome(chunks, chatbotId, conversationId, send, Success(r.value), sent);
    assert |sent| == |chunks|;
    forall i | 0 <= i < |sent|
      ensures |Preamble| <= |sent[i].content| && sent[i].content[..|Preamble|] == Preamble
      ensures CarriedChunk(sent[i]) == chunks[i]
      ensures sent[i].conversationId == conversationId
    {
      assert sent[i] == RequestFor(chunks[i], chatbotId, conversationId);
      RequestForChunk(chunks[i], chatbotId, conversationId);
    }
    var carried := seq(|sent|, i requires 0 <= i < |sent| => CarriedChunk(sent[i]));
    assert carried == chunks;
    SplitTextConcat(text, DefaultMaxLength);
  }
}
