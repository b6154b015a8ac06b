/**
 * The chat endpoints (Backend/src/index.ts, lines 22-23 and 78-132): the stored
 * `lastMessage`, the contents sent to the model, and the event-stream body.
 */
module Chat {
  import opened Common
  import opened JsValues
  import opened JsonText

  datatype Part = Part(text: JsValue)
  datatype Content = Content(role: string, parts: seq<Part>)

  /**
   * `lastMessage.map(msg => ({ role: "user", parts: [{ text: msg.parts }] }))`.
   * `None` is the TypeError of reading `parts` of a `null` or `undefined` entry.
   */
  function ToContents(messages: seq<JsValue>): (r: Option<seq<Content>>)
    ensures r.Some? <==> forall i :: 0 <= i < |messages| ==> !messages[i].Undefined? && !messages[i].Null?
    ensures r.Some? ==> |r.value| == |messages|
    ensures r.Some? ==> forall i :: 0 <= i < |messages| ==>
      r.value[i] == Content("user", [Part(Get(messages[i], "parts").value)])
  {
    if messages == [] then Some([])
    else match Get(messages[0], "parts")
      case None => None
      case Some(p) =>
        match ToContents(messages[1..])
        case None => None
        case Some(rest) => Some([Content("user", [Part(p)])] + rest)
  }

  // ---------------------------------------------------------------------------
  // The event-stream body, lines 118-126.

  /** One event: `data: <payload>` and the blank line that ends it. */
  function Frame(payload: string): string
  {
    "data: " + payload + "\n\n"
  }

  const DonePayload: string := "[DONE]"

  /** The frames for the payloads written so far, in order. */
  function Frames(payloads: seq<string>): string
    decreases |payloads|
  {
    if payloads == [] then "" else Frames(payloads[..|payloads| - 1]) + Frame(payloads[|payloads| - 1])
  }

  /** The whole body: one frame per chunk (line 121), then the end frame (line 124). */
  function StreamBody(chunks: seq<string>): string
  {
    Frames(Payloads(chunks)) + Frame(DonePayload)
  }

  /** The payloads a reader of the body should see, one per chunk. */
  function Payloads(chunks: seq<string>): (ps: seq<string>)
    ensures |ps| == |chunks| && forall i :: 0 <= i < |chunks| ==> ps[i] == EncodeTextPayload(chunks[i])
  {
    seq(|chunks|, i requires 0 <= i < |chunks| => EncodeTextPayload(chunks[i]))
  }

  /**
   * Reads a body made of `data: <payload>\n\n` events back into its payloads;
   * `None` for any other shape.
   */
  function ParseEvents(body: string): Option<seq<string>>
    decreases |body|
  {
    if body == [] then Some([])
    else if |body| < 6 || body[..6] != "data: " then None
    else
      var rest := body[6..];
      var i := IndexOf(rest, '\n');
      if i + 1 < |rest| && rest[i + 1] == '\n' then
        match ParseEvents(rest[i + 2..])
        case None => None
        case Some(events) => Some([rest[..i]] + events)
      else None
  }

  lemma {:induction false} ParseFrame(payload: string, more: string, evs: seq<string>)
    requires '\n' !in payload && ParseEvents(more) == Some(evs)
    ensures ParseEvents(Frame(payload) + more) == Some([payload] + evs)
  {
    var body := Frame(payload) + more;
    assert body[..6] == "data: ";
    var rest := body[6..];
    assert rest == payload + "\n\n" + more;
    var i := IndexOf(rest, '\n');
    assert rest[|payload|] == '\n';
    assert i == |payload| by {
      assert forall j :: 0 <= j < |payload| ==> rest[j] == payload[j];
    }
    assert rest[..i] == payload;
    assert rest[i + 2..] == more;
  }

  lemma {:induction false} FramesCons(payloads: seq<string>)
    requires payloads != []
    ensures Frames(payloads) == Frame(payloads[0]) + Frames(payloads[1..])
    decreases |payloads|
  {
    if |payloads| > 1 {
      var init := payloads[..|payloads| - 1];
      FramesCons(init);
      assert init[0] == payloads[0];
      assert init[1..] == payloads[1..][..|payloads[1..]| - 1];
    } else {
      assert payloads[..0] == [];
      assert payloads[1..] == [];
    }
  }

  lemma FramesSnoc(start: string, payloads: seq<string>, i: nat)
    requires i < |payloads|
    ensures start + Frames(payloads[..i]) + Frame(payloads[i]) == start + Frames(payloads[..i + 1])
  {
    assert payloads[..i + 1][..i] == payloads[..i];
  }

  lemma ParseDone()
    ensures ParseEvents(Frame(DonePayload)) == Some([DonePayload])
  {
    assert Frame(DonePayload) + "" == Frame(DonePayload);
    assert '\n' !in DonePayload;
    assert ParseEvents("") == Some([]);
    ParseFrame(DonePayload, "", []);
    assert [DonePayload] + [] == [DonePayload];
  }

  /** Payloads free of line breaks, then the end marker, read back exactly. */
  lemma {:induction false} ParseFrames(payloads: seq<string>)
    requires forall i :: 0 <= i < |payloads| ==> '\n' !in payloads[i]
    ensures ParseEvents(Frames(payloads) + Frame(DonePayload)) == Some(payloads + [DonePayload])
    decreases |payloads|
  {
    if payloads == [] {
      assert Frames(payloads) + Frame(DonePayload) == Frame(DonePayload);
      ParseDone();
      assert payloads + [DonePayload] == [DonePayload];
    } else {
      var tail := payloads[1..];
      assert forall i :: 0 <= i < |tail| ==> tail[i] == payloads[i + 1];
      ParseFrames(tail);
      ParseFramesCons(payloads[0], tail);
      assert [payloads[0]] + tail == payloads;
    }
  }

  lemma FramesPush(p: string, ps: seq<string>)
    ensures Frames([p] + ps) + Frame(DonePayload) == Frame(p) + (Frames(ps) + Frame(DonePayload))
  {
    FramesCons([p] + ps);
    assert ([p] + ps)[1..] == ps;
  }

  lemma ParseFramesCons(p: string, ps: seq<string>)
    requires '\n' !in p
    requires ParseEvents(Frames(ps) + Frame(DonePayload)) == Some(ps + [DonePayload])
    ensures ParseEvents(Frames([p] + ps) + Frame(DonePayload)) == Some([p] + ps + [DonePayload])
  {
    var rest := Frames(ps) + Frame(DonePayload);
    FramesPush(p, ps);
    ParseFrame(p, rest, ps + [DonePayload]);
    assert [p] + (ps + [DonePayload]) == [p] + ps + [DonePayload];
  }

  /**
   * The body reads back as one payload per chunk, in chunk order, then the
   * end marker, then nothing.
   */
  lemma ParseStreamBody(chunks: seq<string>)
    ensures ParseEvents(StreamBody(chunks)) == Some(Payloads(chunks) + [DonePayload])
  {
    ParseFrames(Payloads(chunks));
  }

  /** The end marker is the last payload and no chunk's payload can be mistaken for it. */
  lemma DoneOnlyAtEnd(chunks: seq<string>)
    ensures forall i :: 0 <= i < |chunks| ==> Payloads(chunks)[i] != DonePayload
  {
    forall i | 0 <= i < |chunks| ensures Payloads(chunks)[i] != DonePayload {
      assert Payloads(chunks)[i][0] == '{';
    }
  }

  // ---------------------------------------------------------------------------
  // State.

  /** An Express response: its status code, the text written so far, whether it has ended. */
  class Response {
    var statusCode: nat
    var body: string
    var json: Option<JsValue>
    var ended: bool

    constructor ()
      ensures statusCode == 200 && body == "" && json == None && !ended
    {
      statusCode := 200;
      body := "";
      json := None;
      ended := false;
    }

    /** `res.write(text)`. */
    method Write(text: string)
      requires !ended
      modifies this
      ensures body == old(body) + text && statusCode == old(statusCode) && json == old(json) && !ended
    {
      body := body + text;
    }

    /** `res.end()`. */
    method End()
      requires !ended
      modifies this
      ensures body == old(body) && statusCode == old(statusCode) && json == old(json) && ended
    {
      ended := true;
    }

    /** Lines 119-123: one frame per chunk, in chunk order. */
    method WriteChunks(chunks: seq<string>)
      requires !ended
      modifies this
      ensures body == old(body) + Frames(Payloads(chunks)) && statusCode == old(statusCode) && json == old(json) && !ended
    {
      ghost var start := body;
      ghost var payloads := Payloads(chunks);
      var i := 0;
      while i < |chunks|
        invariant 0 <= i <= |chunks|
        invariant body == start + Frames(payloads[..i])
        invariant statusCode == old(statusCode) && json == old(json) && !ended
      {
        var payload := EncodeTextPayload(chunks[i]);
        assert payload == payloads[i];
        FramesSnoc(start, payloads, i);
        Write(Frame(payload));
        i := i + 1;
      }
      assert payloads[..i] == payloads;
    }

    /** Lines 118-126: a frame per chunk in chunk order, the end frame, then the end of the response. */
    method Stream(chunks: seq<string>)
      requires !ended
      modifies this
      ensures body == old(body) + StreamBody(chunks) && statusCode == old(statusCode) && json == old(json) && ended
    {
      WriteChunks(chunks);
      Write(Frame(DonePayload));
      End();
    }

    /** `res.status(status).json(value)`: the value is sent as the whole body. */
    method Json(status: nat, value: JsValue)
      requires !ended && json.None?
      modifies this
      ensures statusCode == status && body == old(body) && json == Some(value) && ended
    {
      statusCode := status;
      json := Some(value);
      ended := true;
    }
  }

  /** `{ error: message }`. */
  function ErrorObject(message: string): JsValue
  {
    Obj(map["error" := Str(message)])
  }

  const SuccessObject: JsValue := Obj(map["success" := Bool(true)])

  /** The module-level `lastMessage` with the two handlers that use it. */
  class ChatServer {
    var lastMessage: seq<JsValue>

    /** Line 23: nothing is stored at start. */
    constructor ()
      ensures lastMessage == []
    {
      lastMessage := [];
    }

    /** `POST /chat`, lines 78-94: stores `message` only when it is an array. */
    method PostChat(message: JsValue, res: Response)
      requires !res.ended && res.body == "" && res.json == None
      modifies this, res
      ensures message.Arr? ==> lastMessage == message.items && res.statusCode == 200 && res.json == Some(SuccessObject)
      ensures !message.Arr? ==> lastMessage == old(lastMessage) && res.statusCode == 400 &&
                                res.json == Some(ErrorObject("Invalid message format, expected an array"))
      ensures res.body == "" && res.ended
    {
      if !message.Arr? {
        res.Json(400, ErrorObject("Invalid message format, expected an array"));
        return;
      }
      lastMessage := message.items;
      res.Json(200, SuccessObject);
    }

    /**
     * `GET /chat`, lines 96-132. `contents` is what is sent to the model and
     * `stream` its reply as text chunks (`None`: the call was rejected, which
     * the catch of line 128 turns into 500).
     */
    method GetChat(stream: Option<seq<string>>, res: Response) returns (contents: Option<seq<Content>>)
      requires !res.ended && res.body == "" && res.json == None && res.statusCode == 200
      modifies res
      ensures res.ended
      ensures lastMessage == [] ==>
        contents == None && res.statusCode == 400 && res.body == "" && res.json == Some(ErrorObject("No message to process"))
      ensures lastMessage != [] ==> contents == ToContents(lastMessage)
      ensures lastMessage != [] && (contents.None? || stream.None?) ==>
        res.statusCode == 500 && res.body == "" && res.json == Some(ErrorObject("Internal Server Error"))
      ensures lastMessage != [] && contents.Some? && stream.Some? ==>
        res.statusCode == 200 && res.body == StreamBody(stream.value) && res.json == None
    {
      if |lastMessage| == 0 {
        res.Json(400, ErrorObject("No message to process"));
        return None;
      }
      contents := ToContents(lastMessage);
      if contents.None? || stream.None? {
        res.Json(500, ErrorObject("Internal Server Error"));
        return;
      }
      res.Stream(stream.value);
    }
  }
}
