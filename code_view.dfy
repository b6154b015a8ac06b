/**
 * The build view (Frontend/src/pages/CodeView.tsx): the file structure and
 * initial preview built from the steps, and the stream-message handler.
 */
module CodeView {
  import opened Common
  import opened JsValues
  import opened PathSegments
  import opened FileTree
  import opened BuildSteps

  /** The step reaches the leaf assignment of line 57: it has a path with at least one segment. */
  predicate PlacesFile(step: BuildStep)
  {
    step.path != "" && |Segments(step.path)| > 0
  }

  /** The step places a file whose code is not empty, the kind of step that sets `firstFileCode`. */
  predicate ShowsCode(step: BuildStep)
  {
    PlacesFile(step) && step.code != ""
  }

  /** One iteration of the `forEach` of lines 48-71 on the tree alone. */
  function AddStep(d: Dir, step: BuildStep): (r: Option<Dir>)
    ensures !PlacesFile(step) ==> r == Some(d)
    ensures PlacesFile(step) && r.Some? ==> Lookup(r.value, Segments(step.path)) == Some(File(step.code))
  {
    if !PlacesFile(step) then Some(d)
    else
      var r := Insert(d, Segments(step.path), step.code);
      if r.Some? then InsertThenLookup(d, Segments(step.path), step.code); r else r
  }

  /** The file structure after the steps, in document order; `None` when a step's walk throws. */
  function TreeOf(steps: seq<BuildStep>): Option<Dir>
    decreases |steps|
  {
    if steps == [] then Some(map[])
    else match TreeOf(steps[..|steps| - 1])
      case None => None
      case Some(d) => AddStep(d, steps[|steps| - 1])
  }

  /** `firstFileCode`: the code of the first step that places a file with non-empty code, else `''`. */
  function FirstPreview(steps: seq<BuildStep>): string
  {
    if steps == [] then ""
    else if ShowsCode(steps[0]) then steps[0].code
    else FirstPreview(steps[1..])
  }

  /** What lines 46-78 leave behind: the file structure and the code shown in the editor. */
  datatype Layout = Layout(tree: Dir, preview: string)

  function LayoutOf(steps: seq<BuildStep>): Option<Layout>
  {
    match TreeOf(steps)
    case None => None
    case Some(d) => Some(Layout(d, FirstPreview(steps)))
  }

  /**
   * Lines 46-78. `None` is the exception that ends `init` when a step's walk
   * meets a non-empty file before its last segment.
   */
  method BuildFileStructure(steps: seq<BuildStep>) returns (layout: Option<Layout>)
    ensures layout == LayoutOf(steps)
  {
    var tree: Dir := map[];
    var firstFileCode := "";
    var i := 0;
    while i < |steps|
      invariant 0 <= i <= |steps|
      invariant TreeOf(steps[..i]) == Some(tree)
      invariant firstFileCode == FirstPreview(steps[..i])
    {
      var placed, first := PlaceStep(tree, firstFileCode, steps[i]);
      PlaceStepAdvances(steps, i, tree, firstFileCode, placed, first);
      if placed.None? {
        return None;
      }
      tree, firstFileCode := placed.value, first;
      i := i + 1;
    }
    assert steps[..i] == steps;
    layout := Some(Layout(tree, firstFileCode));
  }

  /**
   * One call of the `forEach` callback, lines 49-70: the walk down the
   * step's path and the update of `firstFileCode`.
   */
  method PlaceStep(tree: Dir, firstFileCode: string, step: BuildStep) returns (placed: Option<Dir>, first: string)
    ensures placed == AddStep(tree, step)
    ensures first == if placed.Some? && firstFileCode == "" && ShowsCode(step) then step.code else firstFileCode
  {
    placed, first := Some(tree), firstFileCode;
    if step.path != "" {
      var parts := Segments(step.path);
      if |parts| > 0 {
        placed := Insert(tree, parts, step.code);
        if placed.Some? && firstFileCode == "" && step.code != "" {
          first := step.code;
        }
      }
    }
  }

  /** One callback call moves the loop's view from the first `i` steps to the first `i + 1`, or abandons the layout. */
  lemma PlaceStepAdvances(steps: seq<BuildStep>, i: nat, tree: Dir, firstFileCode: string, placed: Option<Dir>, first: string)
    requires i < |steps| && TreeOf(steps[..i]) == Some(tree) && firstFileCode == FirstPreview(steps[..i])
    requires placed == AddStep(tree, steps[i])
    requires first == if placed.Some? && firstFileCode == "" && ShowsCode(steps[i]) then steps[i].code else firstFileCode
    ensures placed.None? ==> LayoutOf(steps) == None
    ensures placed.Some? ==> TreeOf(steps[..i + 1]) == placed && first == FirstPreview(steps[..i + 1])
  {
    TreeOfSnoc(steps, i);
    if placed.None? {
      TreeOfFailed(steps, i + 1);
    } else {
      FirstPreviewSnoc(steps[..i], steps[i]);
      assert steps[..i + 1] == steps[..i] + [steps[i]];
    }
  }

  /** One more step: the tree of the first `i + 1` steps is the tree of the first `i` with step `i` added. */
  lemma TreeOfSnoc(steps: seq<BuildStep>, i: nat)
    requires i < |steps|
    ensures TreeOf(steps[..i + 1]) == match TreeOf(steps[..i])
      case None => None
      case Some(d) => AddStep(d, steps[i])
  {
    assert steps[..i + 1][..i] == steps[..i];
  }

  lemma {:induction false} FirstPreviewSnoc(steps: seq<BuildStep>, x: BuildStep)
    ensures FirstPreview(steps + [x]) ==
      if FirstPreview(steps) != "" then FirstPreview(steps)
      else if ShowsCode(x) then x.code else ""
  {
    if steps == [] {
      assert [x][1..] == [];
    } else {
      assert (steps + [x])[0] == steps[0];
      assert (steps + [x])[1..] == steps[1..] + [x];
      FirstPreviewSnoc(steps[1..], x);
    }
  }

  /** Once a prefix fails the whole build fails. */
  lemma {:induction false} TreeOfFailed(steps: seq<BuildStep>, n: nat)
    requires 0 < n <= |steps| && TreeOf(steps[..n]) == None
    ensures TreeOf(steps) == None
    decreases |steps| - n
  {
    if n < |steps| {
      assert steps[..n + 1][..n] == steps[..n];
      TreeOfFailed(steps, n + 1);
    } else {
      assert steps[..n] == steps;
    }
  }

  /** The tree steps only see a step's code and segments: `a/b`, `/a/b` and `a//b` give the same tree. */
  lemma AddStepBySegments(d: Dir, x: BuildStep, y: BuildStep)
    requires x.code == y.code && Segments(x.path) == Segments(y.path)
    ensures AddStep(d, x) == AddStep(d, y)
  {
    assert Split("") == [""];
    assert Segments("") == [];
  }

  /**
   * Last write wins: a step that places a file keeps its code in the final tree
   * as long as no later step places a file on a path that is a prefix or an
   * extension of its own; in particular the later of two steps with the same
   * path decides the file's code.
   */
  lemma LastWriteWins(steps: seq<BuildStep>, j: nat)
    requires j < |steps| && PlacesFile(steps[j]) && TreeOf(steps).Some?
    requires forall k :: j < k < |steps| && PlacesFile(steps[k]) ==>
               Apart(Segments(steps[k].path), Segments(steps[j].path))
    ensures Lookup(TreeOf(steps).value, Segments(steps[j].path)) == Some(File(steps[j].code))
  {
    assert forall k :: j < k < |steps| ==> StepApart(steps[k], Segments(steps[j].path));
    LastWriteWinsApart(steps, j, steps[j]);
  }

  /** The step places no file on a prefix or an extension of `q`. */
  predicate StepApart(step: BuildStep, q: seq<string>)
  {
    PlacesFile(step) ==> Apart(Segments(step.path), q)
  }

  /** Tree `t` exists and holds a file with `code` at `q`. */
  predicate HoldsFile(t: Option<Dir>, q: seq<string>, code: string)
  {
    t.Some? && |q| > 0 && Lookup(t.value, q) == Some(File(code))
  }

  /** `LastWriteWins` by induction on the steps, for the step `w` at index `j`. */
  lemma {:induction false} LastWriteWinsApart(steps: seq<BuildStep>, j: nat, w: BuildStep)
    requires j < |steps| && steps[j] == w && PlacesFile(w) && TreeOf(steps).Some?
    requires forall k :: j < k < |steps| ==> StepApart(steps[k], Segments(w.path))
    ensures HoldsFile(TreeOf(steps), Segments(w.path), w.code)
    decreases |steps|
  {
    var front := steps[..|steps| - 1];
    var last := steps[|steps| - 1];
    var segs := Segments(w.path);
    var d := TreeOf(front).value;
    assert TreeOf(steps) == AddStep(d, last);
    if j == |steps| - 1 {
      assert HoldsFile(AddStep(d, last), segs, w.code);
    } else {
      assert StepApart(last, segs);
      assert forall k :: j < k < |front| ==> front[k] == steps[k];
      LastWriteWinsApart(front, j, w);
      AddStepKeepsApart(d, last, segs);
      assert HoldsFile(AddStep(d, last), segs, w.code);
    }
  }

  /** A step whose path does not overlap `q` leaves what `q` holds alone. */
  lemma AddStepKeepsApart(d: Dir, step: BuildStep, q: seq<string>)
    requires |q| > 0 && AddStep(d, step).Some?
    requires PlacesFile(step) ==> Apart(Segments(step.path), q)
    ensures Lookup(AddStep(d, step).value, q) == Lookup(d, q)
  {
    if PlacesFile(step) {
      InsertKeepsApart(d, Segments(step.path), step.code, q);
    }
  }

  /**
   * The preview is the code of the first step, in document order, that places a
   * file with non-empty code, and `''` when there is none.
   */
  lemma {:induction false} FirstPreviewIsFirst(steps: seq<BuildStep>)
    ensures FirstPreview(steps) == "" <==>
      forall i :: 0 <= i < |steps| ==> !ShowsCode(steps[i])
    ensures FirstPreview(steps) != "" ==>
      exists i :: 0 <= i < |steps| && PlacesFile(steps[i]) && steps[i].code == FirstPreview(steps) &&
        forall j :: 0 <= j < i ==> !ShowsCode(steps[j])
  {
    if steps != [] {
      FirstPreviewIsFirst(steps[1..]);
      if !ShowsCode(steps[0]) {
        if FirstPreview(steps) != "" {
          var i :| 0 <= i < |steps[1..]| && PlacesFile(steps[1..][i]) && steps[1..][i].code == FirstPreview(steps[1..]) &&
            forall j :: 0 <= j < i ==> !ShowsCode(steps[1..][j]);
          assert PlacesFile(steps[i + 1]) && steps[i + 1].code == FirstPreview(steps);
          assert forall j :: 0 <= j < i + 1 ==> !ShowsCode(steps[j]) by {
            forall j | 0 < j < i + 1 ensures !ShowsCode(steps[j]) {
              assert steps[j] == steps[1..][j - 1];
            }
          }
        } else {
          forall i | 0 < i < |steps| ensures !ShowsCode(steps[i]) {
            assert steps[i] == steps[1..][i - 1];
          }
        }
      }
    }
  }

  // ---------------------------------------------------------------------------
  // The stream handler of lines 90-119.

  /** The state the handler reads and sets: the steps, whether the stream is open, the loading flag. */
  datatype ViewState = ViewState(steps: seq<BuildStep>, streamOpen: bool, loading: bool)

  const Sentinel: string := "[DONE]"

  /**
   * `eventSource.onmessage` for an event whose data is `data`. `parse` stands
   * for `JSON.parse` (`None`: it threw). A closed source delivers nothing.
   */
  function OnMessage(s: ViewState, data: string, parse: string -> Option<JsValue>): (r: ViewState)
    ensures !s.streamOpen ==> r == s
    ensures s.streamOpen && data == Sentinel ==> r == s.(streamOpen := false, loading := false)
    ensures data != Sentinel ==> r.streamOpen == s.streamOpen && r.loading == s.loading
    ensures s.streamOpen && data != Sentinel ==>
      r.steps == (if TextIsTruthy(data, parse) then CompleteNext(s.steps) else s.steps)
  {
    if !s.streamOpen then s
    else if data == Sentinel then s.(streamOpen := false, loading := false)
    else if TextIsTruthy(data, parse) then s.(steps := CompleteNext(s.steps))
    else s
  }

  /**
   * `data.text` is truthy, where `data = JSON.parse(event.data)`; a throw on
   * either step is caught. Only an object with a truthy own `text` qualifies.
   */
  function TextIsTruthy(data: string, parse: string -> Option<JsValue>): (ok: bool)
    ensures ok <==> parse(data).Some? && parse(data).value.Obj? && "text" in parse(data).value.fields &&
                    Truthy(parse(data).value.fields["text"])
  {
    parse(data).Some? && Get(parse(data).value, "text").Some? && Truthy(Get(parse(data).value, "text").value)
  }

  /**
   * The caught failures of lines 97-112 change nothing: `JSON.parse` throwing,
   * a value that is not an object (`null` included), and a missing or falsy `text`.
   */
  lemma OnMessageIgnored(s: ViewState, data: string, parse: string -> Option<JsValue>)
    requires s.streamOpen && data != Sentinel
    requires parse(data).None? || !parse(data).value.Obj? || "text" !in parse(data).value.fields ||
             !Truthy(parse(data).value.fields["text"])
    ensures OnMessage(s, data, parse) == s
  {
  }

  /** A message never takes a step out of the completed state, and adds at most one. */
  lemma OnMessageMonotone(s: ViewState, data: string, parse: string -> Option<JsValue>)
    ensures CountCompleted(s.steps) <= CountCompleted(OnMessage(s, data, parse).steps) <= CountCompleted(s.steps) + 1
  {
    CompleteNextCounts(s.steps);
  }

  /** `eventSource.onerror`: the source is closed and loading ends; no step changes. */
  function OnError(s: ViewState): (r: ViewState)
    ensures r.steps == s.steps && !r.streamOpen && !r.loading
  {
    s.(streamOpen := false, loading := false)
  }

  /** The handler applied to each event's data in arrival order. */
  function Feed(s: ViewState, events: seq<string>, parse: string -> Option<JsValue>): ViewState
    decreases |events|
  {
    if events == [] then s else Feed(OnMessage(s, events[0], parse), events[1..], parse)
  }

  /** After the sentinel nothing changes, whatever arrives. */
  lemma {:induction false} FeedAfterClose(s: ViewState, events: seq<string>, parse: string -> Option<JsValue>)
    requires !s.streamOpen
    ensures Feed(s, events, parse) == s
    decreases |events|
  {
    if events != [] {
      FeedAfterClose(OnMessage(s, events[0], parse), events[1..], parse);
    }
  }

  /** The body of the `POST /chat` request of lines 81-85: every prompt, then the user's, as `{parts}`. */
  function ChatRequest(prompts: seq<string>, prompt: string): (message: JsValue)
    ensures message.Arr? && |message.items| == |prompts| + 1
    ensures forall i :: 0 <= i < |prompts| ==> message.items[i] == Obj(map["parts" := Str(prompts[i])])
    ensures message.items[|prompts|] == Obj(map["parts" := Str(prompt)])
  {
    var all := prompts + [prompt];
    Arr(seq(|all|, i requires 0 <= i < |all| => Obj(map["parts" := Str(all[i])])))
  }
}
