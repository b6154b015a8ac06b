/**
 * The `POST /template` handler (Backend/src/index.ts, lines 25-76) without its
 * two model calls: their replies are parameters.
 */
module Template {
  import opened Common
  import opened JsValues

  // ---------------------------------------------------------------------------
  // Prompt validation, lines 28-31.

  /** `!prompt || typeof prompt !== "string"` is false: the prompt is a truthy string. */
  function ValidPrompt(prompt: JsValue): (ok: bool)
    ensures ok <==> prompt.Str? && Truthy(prompt)
  {
    prompt.Str? && prompt.s != ""
  }

  // ---------------------------------------------------------------------------
  // Normalising the classifier's answer, lines 43-48.

  /** The characters `String.prototype.trim` removes: white space and line terminators. */
  predicate IsSpace(c: char)
  {
    c == 9 as char || c == 10 as char || c == 11 as char || c == 12 as char || c == 13 as char ||
    c == ' ' || c == 0xA0 as char || c == 0x1680 as char || (0x2000 as char <= c <= 0x200A as char) ||
    c == 0x2028 as char || c == 0x2029 as char || c == 0x202F as char || c == 0x205F as char ||
    c == 0x3000 as char || c == 0xFEFF as char
  }

  ghost predicate AllSpace(s: string)
  {
    forall i :: 0 <= i < |s| ==> IsSpace(s[i])
  }

  function TrimStart(s: string): (r: string)
    ensures |r| <= |s| && r == s[|s| - |r|..]
    ensures AllSpace(s[..|s| - |r|])
    ensures r == [] || !IsSpace(r[0])
  {
    if s != [] && IsSpace(s[0]) then TrimStart(s[1..]) else s
  }

  function TrimEnd(s: string): (r: string)
    ensures |r| <= |s| && r == s[..|r|]
    ensures AllSpace(s[|r|..])
    ensures r == [] || !IsSpace(r[|r| - 1])
  {
    if s != [] && IsSpace(s[|s| - 1]) then TrimEnd(s[..|s| - 1]) else s
  }

  /** `s.trim()`. */
  function Trim(s: string): (r: string)
    ensures exists i :: TrimmedAt(s, r, i)
    ensures |r| <= |s|
    ensures r == [] || (!IsSpace(r[0]) && !IsSpace(r[|r| - 1]))
  {
    var t := TrimStart(s);
    var r := TrimEnd(t);
    TrimmedBoth(s, t, r);
    r
  }

  /** Whitespace cut from the start and then from the end of what remains is cut from both ends. */
  lemma TrimmedBoth(s: string, t: string, r: string)
    requires |t| <= |s| && t == s[|s| - |t|..] && AllSpace(s[..|s| - |t|])
    requires |r| <= |t| && r == t[..|r|] && AllSpace(t[|r|..])
    ensures TrimmedAt(s, r, |s| - |t|)
  {
    var i := |s| - |t|;
    assert s[i..i + |r|] == t[..|r|];
    assert s[i + |r|..] == t[|r|..];
  }

  /** `s` is `r` with white space only before index `i` and after `r`. */
  ghost predicate TrimmedAt(s: string, r: string, i: int)
  {
    0 <= i && i + |r| <= |s| && s[i..i + |r|] == r && AllSpace(s[..i]) && AllSpace(s[i + |r|..])
  }

  /** `toLowerCase` on the letters A-Z; every other character is kept. */
  function LowerChar(c: char): char
  {
    if 'A' <= c <= 'Z' then (c as int - 'A' as int + 'a' as int) as char else c
  }

  function Lower(s: string): (r: string)
    ensures |r| == |s| && forall i :: 0 <= i < |s| ==> r[i] == LowerChar(s[i])
  {
    seq(|s|, i requires 0 <= i < |s| => LowerChar(s[i]))
  }

  /** `result.response.text()?.trim().toLowerCase()`. */
  function NormalizeAnswer(text: Option<string>): (ans: Option<string>)
    ensures ans.None? <==> text.None?
    ensures ans.Some? ==> |ans.value| <= |text.value|
    ensures ans.Some? ==> ans.value == [] || (!IsSpace(ans.value[0]) && !IsSpace(ans.value[|ans.value| - 1]))
  {
    match text
    case None => None
    case Some(t) =>
      NormalizedEnds(t);
      Some(Lower(Trim(t)))
  }

  /** A normalised answer is no longer than the text and has no whitespace at either end. */
  lemma NormalizedEnds(t: string)
    ensures var a := Lower(Trim(t)); |a| <= |t| && (a == [] || (!IsSpace(a[0]) && !IsSpace(a[|a| - 1])))
  {
    var r := Trim(t);
    if r != [] {
      LowerCharSpace(r[0]);
      LowerCharSpace(r[|r| - 1]);
    }
  }

  datatype AppKind = React | Node

  /** Lines 45-48: only `"react"` and `"node"` are accepted. */
  function Classify(ans: Option<string>): (kind: Option<AppKind>)
    ensures kind == Some(React) <==> ans == Some("react")
    ensures kind == Some(Node) <==> ans == Some("node")
    ensures kind == None <==> ans != Some("react") && ans != Some("node")
  {
    if ans == Some("react") then Some(React)
    else if ans == Some("node") then Some(Node)
    else None
  }

  lemma {:induction false} TrimStartOfSpaced(a: string, w: string)
    requires AllSpace(a) && w != [] && !IsSpace(w[0])
    ensures TrimStart(a + w) == w
  {
    if a != [] {
      assert (a + w)[1..] == a[1..] + w;
      TrimStartOfSpaced(a[1..], w);
    }
  }

  lemma {:induction false} TrimEndOfSpaced(w: string, b: string)
    requires AllSpace(b) && w != [] && !IsSpace(w[|w| - 1])
    ensures TrimEnd(w + b) == w
  {
    if b != [] {
      assert (w + b)[..|w + b| - 1] == w + b[..|b| - 1];
      TrimEndOfSpaced(w, b[..|b| - 1]);
    } else {
      assert w + b == w;
    }
  }

  /** Trimming drops surrounding white space around a word that starts and ends with a non-space. */
  lemma TrimAround(a: string, w: string, b: string)
    requires AllSpace(a) && AllSpace(b) && w != [] && !IsSpace(w[0]) && !IsSpace(w[|w| - 1])
    ensures Trim(a + w + b) == w
  {
    assert a + w + b == a + (w + b);
    TrimStartOfSpaced(a, w + b);
    TrimEndOfSpaced(w, b);
  }

  /**
   * The classifier's answer is accepted as `kind` exactly when it is the
   * kind's name in any mix of upper and lower case letters, surrounded by any
   * white space.
   */
  lemma AcceptedAnswers(text: string, name: string)
    requires name == "react" || name == "node"
    ensures NormalizeAnswer(Some(text)) == Some(name) <==>
      exists a, w, b :: text == a + w + b && AllSpace(a) && AllSpace(b) && Lower(w) == name
  {
    if NormalizeAnswer(Some(text)) == Some(name) {
      AcceptedIsSpacedName(text, name);
    }
    if exists a, w, b :: text == a + w + b && AllSpace(a) && AllSpace(b) && Lower(w) == name {
      var a, w, b :| text == a + w + b && AllSpace(a) && AllSpace(b) && Lower(w) == name;
      SpacedNameIsAccepted(a, w, b, name);
    }
  }

  lemma AcceptedIsSpacedName(text: string, name: string)
    requires NormalizeAnswer(Some(text)) == Some(name)
    ensures exists a, w, b :: text == a + w + b && AllSpace(a) && AllSpace(b) && Lower(w) == name
  {
    var w := Trim(text);
    assert Lower(w) == name;
    var i :| TrimmedAt(text, w, i);
    var a, b := text[..i], text[i + |w|..];
    SplitThree(text, i, i + |w|);
    assert text == a + w + b && AllSpace(a) && AllSpace(b);
  }

  lemma SplitThree(s: string, i: nat, j: nat)
    requires i <= j <= |s|
    ensures s == s[..i] + s[i..j] + s[j..]
  {
  }

  lemma SpacedNameIsAccepted(a: string, w: string, b: string, name: string)
    requires name == "react" || name == "node"
    requires AllSpace(a) && AllSpace(b) && Lower(w) == name
    ensures NormalizeAnswer(Some(a + w + b)) == Some(name)
  {
    assert |w| == |name|;
    assert LowerChar(w[0]) == name[0] && LowerChar(w[|w| - 1]) == name[|name| - 1];
    LowerCharSpace(w[0]);
    LowerCharSpace(w[|w| - 1]);
    TrimAround(a, w, b);
  }

  /** Normalising an already normalised answer changes nothing. */
  lemma NormalizeAnswerIdempotent(text: Option<string>)
    ensures NormalizeAnswer(NormalizeAnswer(text)) == NormalizeAnswer(text)
  {
    if text.Some? {
      var t := Trim(text.value);
      var w := Lower(t);
      if w != [] {
        LowerCharSpace(t[0]);
        LowerCharSpace(t[|t| - 1]);
        TrimAround([], w, []);
        assert [] + w + [] == w;
      } else {
        assert Trim(w) == w;
      }
      LowerIdempotent(t);
    }
  }

  lemma LowerIdempotent(s: string)
    ensures Lower(Lower(s)) == Lower(s)
  {
    var w := Lower(s);
    forall i | 0 <= i < |w| ensures Lower(w)[i] == w[i] {
      LowerCharIdempotent(s[i]);
    }
  }

  lemma LowerCharIdempotent(c: char)
    ensures LowerChar(LowerChar(c)) == LowerChar(c)
  {
  }

  lemma LowerCharSpace(c: char)
    ensures IsSpace(LowerChar(c)) <==> IsSpace(c)
  {
  }

  // ---------------------------------------------------------------------------
  // The app prompt, lines 52-54.

  const ReactIntro: string := "\nCreate a React application for: "
  const NodeIntro: string := "Create a Node.js application for: "

  /** The fixed text before the user's prompt; `basePrompt` is `BASE_PROMPT`. */
  function Preamble(kind: AppKind, basePrompt: string): string
  {
    match kind
    case React => basePrompt + ReactIntro
    case Node => NodeIntro
  }

  function AppPrompt(kind: AppKind, basePrompt: string, prompt: string): (p: string)
    ensures p == Preamble(kind, basePrompt) + prompt
  {
    match kind
    case React => basePrompt + ReactIntro + prompt
    case Node => NodeIntro + prompt
  }

  /** The user's prompt read back from an app prompt. */
  function RequestOf(kind: AppKind, basePrompt: string, appPrompt: string): Option<string>
  {
    var pre := Preamble(kind, basePrompt);
    if pre <= appPrompt then Some(appPrompt[|pre|..]) else None
  }

  /** The app prompt keeps the user's prompt whole, after the kind's fixed text. */
  lemma RequestOfAppPrompt(kind: AppKind, basePrompt: string, prompt: string)
    ensures RequestOf(kind, basePrompt, AppPrompt(kind, basePrompt, prompt)) == Some(prompt)
  {
    var pre := Preamble(kind, basePrompt);
    assert (pre + prompt)[..|pre|] == pre;
    assert (pre + prompt)[|pre|..] == prompt;
  }

  // ---------------------------------------------------------------------------
  // The artifact check, line 66: /<boltArtifact[^>]*>([\s\S]*?)<\/boltArtifact>/

  const OpenTag: string := "<boltArtifact"
  const CloseTag: string := "</boltArtifact>"

  predicate HasAt(s: string, pat: string, i: nat)
  {
    i + |pat| <= |s| && s[i..i + |pat|] == pat
  }

  /** The first index at or after `from` where `pat` occurs, or -1. */
  function FindFrom(s: string, pat: string, from: nat): (i: int)
    ensures i == -1 || (from <= i && HasAt(s, pat, i))
    ensures i == -1 ==> forall j :: from <= j ==> !HasAt(s, pat, j)
    ensures i >= 0 ==> forall j :: from <= j < i ==> !HasAt(s, pat, j)
    decreases |s| - from
  {
    if from + |pat| > |s| then -1
    else if s[from..from + |pat|] == pat then from
    else FindFrom(s, pat, from + 1)
  }

  /** The first index at or after `from` holding `c`, or -1. */
  function FindCharFrom(s: string, c: char, from: nat): (i: int)
    ensures i == -1 || (from <= i < |s| && s[i] == c)
    ensures i == -1 ==> forall j :: from <= j < |s| ==> s[j] != c
    ensures i >= 0 ==> forall j :: from <= j < i ==> s[j] != c
    decreases |s| - from
  {
    if from >= |s| then -1
    else if s[from] == c then from
    else FindCharFrom(s, c, from + 1)
  }

  /** The search: the first opening tag, the first `>` after its name, then a closing tag. */
  predicate FirstMatchFound(s: string)
  {
    var i := FindFrom(s, OpenTag, 0);
    i >= 0 &&
    var k := FindCharFrom(s, '>', i + |OpenTag|);
    k >= 0 && FindFrom(s, CloseTag, k + 1) >= 0
  }

  /** `responseText.match(...)` is not `null`: the text holds a match of the pattern. */
  function HasArtifact(s: string): (found: bool)
    ensures found <==> ArtifactMatches(s)
  {
    SearchDecidesMatch(s);
    FirstMatchFound(s)
  }

  /** A match of the pattern: opening tag at `i`, its `>` at `k` with no `>` between, closing tag at `j`. */
  ghost predicate MatchAt(s: string, i: nat, k: nat, j: nat)
  {
    HasAt(s, OpenTag, i) && i + |OpenTag| <= k < j && k < |s| && s[k] == '>' &&
    (forall m :: i + |OpenTag| <= m < k ==> s[m] != '>') && HasAt(s, CloseTag, j)
  }

  ghost predicate ArtifactMatches(s: string)
  {
    exists i: nat, k: nat, j: nat :: MatchAt(s, i, k, j)
  }

  /** The search agrees with the pattern on every text: taking the first opening tag loses no match. */
  lemma SearchDecidesMatch(s: string)
    ensures FirstMatchFound(s) <==> ArtifactMatches(s)
  {
    if FirstMatchFound(s) {
      var i := FindFrom(s, OpenTag, 0);
      var k := FindCharFrom(s, '>', i + |OpenTag|);
      var j := FindFrom(s, CloseTag, k + 1);
      assert MatchAt(s, i, k, j);
    }
    if ArtifactMatches(s) {
      var i: nat, k: nat, j: nat :| MatchAt(s, i, k, j);
      var i0 := FindFrom(s, OpenTag, 0);
      assert 0 <= i0 <= i;
      var k0 := FindCharFrom(s, '>', i0 + |OpenTag|);
      assert 0 <= k0 <= k;
      var j0 := FindFrom(s, CloseTag, k0 + 1);
      assert j0 >= 0;
    }
  }

  // ---------------------------------------------------------------------------
  // The whole handler.

  /**
   * The response: `{prompts, uiPrompts}`, or an error status with its JSON
   * body `{ key: text }` (the 403 reply uses the key `message`, the others `error`).
   */
  datatype TemplateReply =
    | Templates(prompts: seq<string>, uiPrompts: seq<string>)
    | Rejected(status: nat, key: string, text: string)

  const BadPrompt: TemplateReply := Rejected(400, "error", "Invalid prompt, expected a string")
  const NotAnApp: TemplateReply := Rejected(403, "message", "You can only create react or node applications")
  const NoArtifact: TemplateReply := Rejected(500, "error", "Invalid response format from LLM")

  /**
   * `prompt` is `req.body.prompt`, `classifierText` the first model's
   * `text()` (`None`: undefined), `basePrompt` is `BASE_PROMPT`, and
   * `responseText` the second model's reply to the app prompt.
   */
  function HandleTemplate(prompt: JsValue, classifierText: Option<string>, basePrompt: string, responseText: string): (r: TemplateReply)
    ensures r == BadPrompt <==> !ValidPrompt(prompt)
    ensures r == NotAnApp <==> ValidPrompt(prompt) && Classify(NormalizeAnswer(classifierText)).None?
    ensures r == NoArtifact <==>
      ValidPrompt(prompt) && Classify(NormalizeAnswer(classifierText)).Some? && !ArtifactMatches(responseText)
    ensures r.Templates? <==>
      ValidPrompt(prompt) && Classify(NormalizeAnswer(classifierText)).Some? && ArtifactMatches(responseText)
    ensures r.Templates? ==>
      r.prompts == [AppPrompt(Classify(NormalizeAnswer(classifierText)).value, basePrompt, prompt.s)] &&
      r.uiPrompts == [responseText]
  {
    if !ValidPrompt(prompt) then BadPrompt
    else match Classify(NormalizeAnswer(classifierText))
      case None => NotAnApp
      case Some(kind) =>
        var appPrompt := AppPrompt(kind, basePrompt, prompt.s);
        if !HasArtifact(responseText) then NoArtifact
        else Templates([appPrompt], [responseText])
  }
}
