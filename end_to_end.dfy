/**
 * The two halves of the chat stream put together: what `GET /chat` writes
 * (Backend/src/index.ts, lines 118-126) is read back as events and fed to the
 * handler of Frontend/src/pages/CodeView.tsx (lines 90-119), and the request
 * that CodeView posts (lines 81-85) is what the backend turns into contents.
 */
module EndToEnd {
  import opened Common
  import opened JsValues
  import opened JsonText
  import opened BuildSteps
  import opened CodeView
  import opened Chat
  import opened FileTree
  import opened Template

  /** How many chunks carry a non-empty text, i.e. how many messages the handler acts on. */
  function CountNonEmpty(chunks: seq<string>): (n: nat)
    ensures n <= |chunks|
    ensures n == 0 <==> forall i :: 0 <= i < |chunks| ==> chunks[i] == ""
  {
    if chunks == [] then 0
    else
      assert forall i :: 1 <= i < |chunks| ==> chunks[1..][i - 1] == chunks[i];
      (if chunks[0] != "" then 1 else 0) + CountNonEmpty(chunks[1..])
  }

  /** `parse` understands every payload the backend writes, as `JSON.parse` does. */
  ghost predicate ReadsPayloads(parse: string -> Option<JsValue>)
  {
    forall t :: parse(EncodeTextPayload(t)) == Some(TextObject(t))
  }

  /** The concrete decoder is such a `parse`. */
  lemma DecoderReadsPayloads()
    ensures ReadsPayloads(DecodeTextPayload)
  {
    forall t ensures DecodeTextPayload(EncodeTextPayload(t)) == Some(TextObject(t)) {
      DecodeEncodeTextPayload(t);
    }
  }

  /** One chunk's payload: a step is completed exactly when the chunk's text is not empty. */
  lemma OnChunk(s: ViewState, t: string, parse: string -> Option<JsValue>)
    requires s.streamOpen && ReadsPayloads(parse)
    ensures OnMessage(s, EncodeTextPayload(t), parse) ==
      (if t != "" then s.(steps := CompleteNext(s.steps)) else s)
  {
    var payload := EncodeTextPayload(t);
    assert payload[0] == '{';
    assert payload != Sentinel;
    assert parse(payload) == Some(TextObject(t));
    assert Get(TextObject(t), "text") == Some(Str(t));
  }

  /**
   * Feeding the payloads of a whole stream and then the end marker to an open
   * view completes one step per non-empty chunk, then closes the source and
   * ends loading.
   */
  lemma {:induction false} FeedStream(s: ViewState, chunks: seq<string>, parse: string -> Option<JsValue>)
    requires s.streamOpen && ReadsPayloads(parse)
    ensures Feed(s, Payloads(chunks) + [DonePayload], parse) ==
      s.(steps := CompleteNextN(s.steps, CountNonEmpty(chunks)), streamOpen := false, loading := false)
    decreases |chunks|
  {
    if chunks == [] {
      assert Payloads(chunks) + [DonePayload] == [Sentinel];
      FeedCons(s, Sentinel, [], parse);
    } else {
      var tail := chunks[1..];
      var payload := EncodeTextPayload(chunks[0]);
      var next := OnMessage(s, payload, parse);
      calc {
        Feed(s, Payloads(chunks) + [DonePayload], parse);
        { EventsCons(chunks); FeedCons(s, payload, Payloads(tail) + [DonePayload], parse); }
        Feed(next, Payloads(tail) + [DonePayload], parse);
        { OnChunk(s, chunks[0], parse); FeedStream(next, tail, parse); }
        next.(steps := CompleteNextN(next.steps, CountNonEmpty(tail)), streamOpen := false, loading := false);
        { OnChunk(s, chunks[0], parse); }
        s.(steps := CompleteNextN(s.steps, CountNonEmpty(chunks)), streamOpen := false, loading := false);
      }
    }
  }

  /** The events of a non-empty stream: the first chunk's payload, then the rest. */
  lemma EventsCons(chunks: seq<string>)
    requires chunks != []
    ensures Payloads(chunks) + [DonePayload] ==
      [EncodeTextPayload(chunks[0])] + (Payloads(chunks[1..]) + [DonePayload])
  {
    var l := Payloads(chunks);
    var r := [EncodeTextPayload(chunks[0])] + Payloads(chunks[1..]);
    forall i | 0 <= i < |l| ensures l[i] == r[i] {
      if i > 0 {
        assert chunks[1..][i - 1] == chunks[i];
      }
    }
    assert l == r;
    ConcatAssoc([EncodeTextPayload(chunks[0])], Payloads(chunks[1..]), [DonePayload]);
  }

  lemma FeedCons(s: ViewState, data: string, rest: seq<string>, parse: string -> Option<JsValue>)
    ensures Feed(s, [data] + rest, parse) == Feed(OnMessage(s, data, parse), rest, parse)
  {
    assert ([data] + rest)[1..] == rest;
  }

  /**
   * The body `GET /chat` writes, read back as events and handed to the view:
   * one step completed per non-empty chunk, then the view stops listening.
   */
  lemma StreamReachesView(s: ViewState, chunks: seq<string>, parse: string -> Option<JsValue>)
    requires s.streamOpen && ReadsPayloads(parse)
    ensures ParseEvents(StreamBody(chunks)).Some?
    ensures Feed(s, ParseEvents(StreamBody(chunks)).value, parse) ==
      s.(steps := CompleteNextN(s.steps, CountNonEmpty(chunks)), streamOpen := false, loading := false)
  {
    ParseStreamBody(chunks);
    FeedStream(s, chunks, parse);
  }

  /**
   * From a freshly parsed plan (every step pending), a stream completes the
   * first steps in document order, one per non-empty chunk, and leaves the
   * rest pending.
   */
  lemma StreamCompletesInOrder(s: ViewState, chunks: seq<string>)
    requires s.streamOpen && AllPending(s.steps)
    ensures ParseEvents(StreamBody(chunks)).Some?
    ensures var r := Feed(s, ParseEvents(StreamBody(chunks)).value, DecodeTextPayload);
      var k := CountNonEmpty(chunks);
      !r.streamOpen && !r.loading && SameSteps(s.steps, r.steps) &&
      CompletedUpTo(r.steps, if k < |s.steps| then k else |s.steps|)
  {
    DecoderReadsPayloads();
    StreamReachesView(s, chunks, DecodeTextPayload);
    CompleteNextNFromPending(s.steps, CountNonEmpty(chunks));
  }

  /**
   * The array CodeView posts never makes the backend's contents mapping
   * throw: each prompt becomes one user content whose single part is that
   * prompt, in order, the user's own prompt last.
   */
  lemma RequestContents(prompts: seq<string>, prompt: string)
    ensures var r := ToContents(ChatRequest(prompts, prompt).items);
      r.Some? && |r.value| == |prompts| + 1 &&
      (forall i :: 0 <= i < |prompts| ==> r.value[i] == Content("user", [Part(Str(prompts[i]))])) &&
      r.value[|prompts|] == Content("user", [Part(Str(prompt))])
  {
    var items := ChatRequest(prompts, prompt).items;
    forall i | 0 <= i < |items|
      ensures !items[i].Undefined? && !items[i].Null?
    {
    }
  }

  // ---------------------------------------------------------------------------
  // `init`, lines 23-127, in the order its awaits impose.

  /**
   * What `init` leaves behind: the body posted to `/template`, the React
   * state it sets (steps, file structure, editor code, loading flag), the
   * body posted to `/chat`, and whether it opened the event source.
   */
  datatype InitState = InitState(
    templateBody: Option<JsValue>,
    steps: seq<BuildStep>,
    tree: Dir,
    code: string,
    chatBody: Option<JsValue>,
    streamOpen: bool,
    loading: bool)

  /** The view as the stream handler sees it once `init` has returned. */
  function ViewOf(r: InitState): ViewState
  {
    ViewState(r.steps, r.streamOpen, r.loading)
  }

  /**
   * `init` for the stored `prompt`. `reply` is the `/template` answer (a
   * rejection makes `axios` throw into the catch of lines 121-124) and
   * `parsed` is what `parseXml(uiPrompts[0])` returns for it.
   */
  function Init(prompt: string, reply: TemplateReply, parsed: seq<Step>): (r: InitState)
    ensures prompt == "" ==> r.templateBody.None? && r.steps == [] && r.chatBody.None? && !r.streamOpen && r.loading
    ensures prompt != "" ==> r.templateBody == Some(Obj(map["prompt" := Str(Trim(prompt))]))
    ensures prompt != "" && reply.Rejected? ==> r.steps == [] && r.chatBody.None? && !r.streamOpen && !r.loading
    ensures prompt != "" && reply.Templates? ==> r.steps == NormalizeAll(parsed)
    ensures r.chatBody.Some? <==> prompt != "" && reply.Templates? && TreeOf(NormalizeAll(parsed)).Some?
    ensures r.chatBody.Some? ==>
      r.chatBody == Some(ChatRequest(reply.prompts, prompt)) && r.streamOpen && r.loading &&
      LayoutOf(r.steps) == Some(Layout(r.tree, r.code))
    ensures r.chatBody.None? ==> !r.streamOpen && r.tree == map[] && r.code == ""
    ensures prompt != "" && r.chatBody.None? ==> !r.loading
  {
    var idle := InitState(None, [], map[], "", None, false, true);
    if prompt == "" then idle
    else
      var sent := idle.(templateBody := Some(Obj(map["prompt" := Str(Trim(prompt))])));
      match reply
      case Rejected(_, _, _) => sent.(loading := false)
      case Templates(prompts, _) =>
        var steps := NormalizeAll(parsed);
        match LayoutOf(steps)
        case None => sent.(steps := steps, loading := false)
        case Some(layout) =>
          sent.(steps := steps, tree := layout.tree, code := layout.preview,
                chatBody := Some(ChatRequest(prompts, prompt)), streamOpen := true)
  }

  /**
   * After a successful `init`, the body `GET /chat` writes completes the
   * first parsed steps in document order, one per non-empty chunk, keeps
   * every step's title, code and path, and ends loading.
   */
  lemma InitThenStream(prompt: string, reply: TemplateReply, parsed: seq<Step>, chunks: seq<string>)
    requires Init(prompt, reply, parsed).chatBody.Some?
    ensures ParseEvents(StreamBody(chunks)).Some?
    ensures var v := Feed(ViewOf(Init(prompt, reply, parsed)), ParseEvents(StreamBody(chunks)).value, DecodeTextPayload);
      var k := CountNonEmpty(chunks);
      !v.streamOpen && !v.loading && SameSteps(NormalizeAll(parsed), v.steps) &&
      CompletedUpTo(v.steps, if k < |parsed| then k else |parsed|)
  {
    StreamCompletesInOrder(ViewOf(Init(prompt, reply, parsed)), chunks);
  }

  /**
   * The backend's own `/template` answer for the trimmed prompt, sent through
   * `init`: the chat post carries the app prompt and then the user's prompt
   * exactly when the request was valid, classified and answered with an
   * artifact, and the steps laid out without a throw.
   */
  lemma InitAgainstBackend(prompt: string, classifierText: Option<string>, basePrompt: string,
                           responseText: string, parsed: seq<Step>)
    requires prompt != ""
    ensures var reply := HandleTemplate(Str(Trim(prompt)), classifierText, basePrompt, responseText);
      var r := Init(prompt, reply, parsed);
      r.chatBody.Some? <==>
        Trim(prompt) != "" && Classify(NormalizeAnswer(classifierText)).Some? && ArtifactMatches(responseText) &&
        TreeOf(NormalizeAll(parsed)).Some?
    ensures var reply := HandleTemplate(Str(Trim(prompt)), classifierText, basePrompt, responseText);
      var r := Init(prompt, reply, parsed);
      r.chatBody.Some? ==>
        r.chatBody == Some(ChatRequest([AppPrompt(Classify(NormalizeAnswer(classifierText)).value, basePrompt, Trim(prompt))], prompt))
  {
  }
}
