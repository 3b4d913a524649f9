/**
 Assembling a request body: the request's own count of missing bytes (lengthRemaining) and the read
 budget of the socket reader (maxRead) run side by side. The request line and the header lines are
 not part of this model; it starts at the blank line that ends the headers.
 */
module RequestBody {
  import opened Query
  import opened Split
  import opened Wrappers
  import Url

  datatype Mode = Headers | Content | Method

  datatype Result = Continue | DisableLineMode | Done

  /** A request handed to the handler: its content, and its form fields (None if undefined). */
  datatype Handled = Handled(content: string, form: Option<Parameters>)

  /** `passedOn` is what reaches the request after it was complete. */
  datatype State = State(
    mode: Mode, hasLength: bool, contentLength: nat, lengthRemaining: nat, isForm: bool,
    content: string, form: Option<Parameters>, lineMode: bool, maxRead: nat,
    handled: seq<Handled>, passedOn: string)

  function Absorbed(content: string, isForm: bool): Handled {
    if isForm then Handled("", ParametersOf(content, false)) else Handled(content, Some(map[]))
  }

  /** The state after one line or chunk. */
  function LineHandled(s: State, line: string): State {
    match s.mode
    case Headers =>
      if line != "" then s
      else if s.hasLength then s.(mode := Content, maxRead := s.contentLength, lineMode := false)
      else s.(mode := Content, handled := s.handled + [Handled(s.content, s.form)])
    case Content =>
      if s.lengthRemaining <= |line| then
        var last := if s.lengthRemaining < |line| then line[s.lengthRemaining..] else line;
        var request := Absorbed(s.content + last, s.isForm);
        s.(mode := Method, lengthRemaining := 0, content := request.content,
           form := if s.isForm then request.form else s.form,
           handled := s.handled + [Handled(request.content, if s.isForm then request.form else s.form)])
      else
        s.(content := s.content + line, lengthRemaining := s.lengthRemaining - |line|)
    case Method => s.(passedOn := s.passedOn + line)
  }

  /** How much the reader takes from the socket at once. */
  function ToRead(s: State, bufferSize: nat, readable: nat): (n: nat)
    ensures n <= readable && n <= bufferSize
    ensures 0 < bufferSize && 0 < readable ==> 0 < n
  {
    var n := Min(bufferSize, readable);
    if 0 < s.maxRead then Min(n, s.maxRead) else n
  }

  function ChunkRead(s: State, chunk: string): State
    requires s.maxRead == 0 || |chunk| <= s.maxRead
  {
    LineHandled(if 0 < s.maxRead then s.(maxRead := s.maxRead - |chunk|) else s, chunk)
  }

  /** Reading until the socket is empty. */
  function ReadAll(s: State, input: string, bufferSize: nat): State
    requires 0 < bufferSize
    decreases |input|
  {
    if input == "" then s
    else
      var n := ToRead(s, bufferSize, |input|);
      ReadAll(ChunkRead(s, input[..n]), input[n..], bufferSize)
  }

  /** One read event after the other. */
  function Received(s: State, inputs: seq<string>, bufferSize: nat): State
    requires 0 < bufferSize
    decreases |inputs|
  {
    if inputs == [] then s else Received(ReadAll(s, inputs[0], bufferSize), inputs[1..], bufferSize)
  }

  function Concat(inputs: seq<string>): string {
    if inputs == [] then "" else inputs[0] + Concat(inputs[1..])
  }

  class Connection {
    var mode: Mode
    var contentLength: nat
    var lengthRemaining: nat
    var content: string
    var form: Option<Parameters>
    var lineMode: bool
    var maxRead: nat
    var handled: seq<Handled>
    var passedOn: string
    const hasLength: bool
    const isForm: bool

    /** The request with all its headers read. */
    constructor (hasLength: bool, contentLength: nat, isForm: bool)
      ensures View() == HeadersRead(hasLength, contentLength, isForm)
    {
      this.hasLength, this.isForm := hasLength, isForm;
      this.contentLength, lengthRemaining := contentLength, contentLength;
      mode, content, form := Headers, "", Some(map[]);
      lineMode, maxRead := true, 0;
      handled, passedOn := [], "";
    }

    function View(): State
      reads this
    {
      State(mode, hasLength, contentLength, lengthRemaining, isForm, content, form, lineMode, maxRead, handled, passedOn)
    }

    method AbsorbPost()
      requires |content| < Url.SIZES
      modifies `form, `content
      ensures content == "" && form == ParametersOf(old(content), false)
    {
      form := GetParameters(content, false);
      content := "";
    }

    method HandleLine(line: string) returns (result: Result)
      requires mode != Method && |content| + |line| < Url.SIZES
      requires mode == Headers ==> line == ""
      modifies this
      ensures result == if old(mode) == Headers then (if hasLength then DisableLineMode else Done)
                        else if old(lengthRemaining) <= |line| then Done else Continue
      ensures result == Done ==> View().(handled := handled + [Handled(content, form)]) == LineHandled(old(View()), line)
      ensures result == DisableLineMode ==> View().(lineMode := false) == LineHandled(old(View()), line)
      ensures result == Continue ==> View() == LineHandled(old(View()), line)
    {
      hide ParametersOf;
      if line == "" && mode == Headers {
        mode := Content;
        if hasLength {
          maxRead := contentLength;
          return DisableLineMode;
        }
        return Done;
      }
      if lengthRemaining < |line| {
        content := content + line[lengthRemaining..];
        lengthRemaining := 0;
      } else if lengthRemaining == |line| {
        content := content + line;
        lengthRemaining := 0;
      }
      if lengthRemaining == 0 {
        if isForm {
          AbsorbPost();
        }
        mode := Method;
        return Done;
      }
      content := content + line;
      lengthRemaining := lengthRemaining - |line|;
      result := Continue;
    }

    method HandleInput(line: string)
      requires mode == Headers ==> line == ""
      requires |content| + |line| < Url.SIZES
      modifies this
      ensures View() == LineHandled(old(View()), line)
      ensures |content| <= old(|content|) + |line|
      ensures old(mode) != Headers ==> mode != Headers
    {
      hide ParametersOf;
      if mode == Method {
        passedOn := passedOn + line;
        return;
      }
      var result := HandleLine(line);
      if result == DisableLineMode {
        lineMode := false;
      } else if result == Done {
        handled := handled + [Handled(content, form)];
      }
    }

    /** The read loop outside line mode. */
    method HandleRead(input: string, bufferSize: nat)
      requires 0 < bufferSize && mode != Headers
      requires |content| + |input| < Url.SIZES
      modifies this
      ensures View() == ReadAll(old(View()), input, bufferSize)
    {
      hide ParametersOf, LineHandled;
      var pending := input;
      while pending != ""
        invariant mode != Headers && |content| + |pending| < Url.SIZES
        invariant ReadAll(View(), pending, bufferSize) == ReadAll(old(View()), input, bufferSize)
        decreases |pending|
      {
        var toRead := Min(bufferSize, |pending|);
        var useMaxRead := 0 < maxRead;
        if useMaxRead {
          toRead := Min(toRead, maxRead);
        }
        var chunk := pending[..toRead];
        assert toRead == ToRead(View(), bufferSize, |pending|);
        pending := pending[toRead..];
        if useMaxRead {
          maxRead := maxRead - toRead;
        }
        HandleInput(chunk);
      }
    }
  }

  function HeadersRead(hasLength: bool, contentLength: nat, isForm: bool): State {
    State(Headers, hasLength, contentLength, contentLength, isForm, "", Some(map[]), true, 0, [], "")
  }

  /** The state in which the body is read: after the blank line. */
  function Waiting(contentLength: nat, isForm: bool): State {
    LineHandled(HeadersRead(true, contentLength, isForm), "")
  }

  /** A request without a length is handed over at its blank line, once, with no content and no fields,
      and the connection stays in line mode without a budget. */
  lemma WithoutLength(contentLength: nat, isForm: bool)
    ensures var s, t := HeadersRead(false, contentLength, isForm), LineHandled(HeadersRead(false, contentLength, isForm), "");
            && t.handled == [Handled("", Some(map[]))]
            && t == s.(mode := Content, handled := t.handled) && t.lineMode && t.maxRead == 0
  {
  }

  /** It stays in the mode for content, though: the next line, which begins the next request, is handed
      over as the content of another one. */
  lemma NextLineIsContent(isForm: bool, line: string)
    ensures var s := LineHandled(LineHandled(HeadersRead(false, 0, isForm), ""), line);
            s.handled == [Handled("", Some(map[])), Absorbed(line, isForm)]
  {
    hide ParametersOf;
    assert line[0..] == line && "" + line == line;
  }

  /** What holds after `received` bytes of the body and whatever follows it. */
  ghost predicate Assembling(s: State, contentLength: nat, isForm: bool, received: string) {
    s == if |received| < contentLength then
           Waiting(contentLength, isForm).(
             content := received, lengthRemaining := contentLength - |received|, maxRead := contentLength - |received|)
         else
           Complete(contentLength, isForm, received[..contentLength], received[contentLength..])
  }

  function Complete(contentLength: nat, isForm: bool, body: string, after: string): State {
    var request := Absorbed(body, isForm);
    State(Method, true, contentLength, 0, isForm, request.content, request.form, false, 0, [request], after)
  }

  lemma ChunkKeeps(s: State, contentLength: nat, isForm: bool, received: string, chunk: string)
    requires Assembling(s, contentLength, isForm, received)
    requires chunk != "" && 0 < contentLength
    requires 0 < s.maxRead ==> |chunk| <= s.maxRead
    ensures Assembling(ChunkRead(s, chunk), contentLength, isForm, received + chunk)
  {
    hide ParametersOf;
    var all := received + chunk;
    if |received| < contentLength {
      assert |all| == contentLength ==> all[..contentLength] == all && all[contentLength..] == "";
    } else {
      assert all[..contentLength] == received[..contentLength];
      assert all[contentLength..] == received[contentLength..] + chunk;
    }
  }

  lemma {:induction false} ReadKeeps(s: State, contentLength: nat, isForm: bool, received: string, input: string, bufferSize: nat)
    requires Assembling(s, contentLength, isForm, received)
    requires 0 < bufferSize && 0 < contentLength
    ensures Assembling(ReadAll(s, input, bufferSize), contentLength, isForm, received + input)
    decreases |input|
  {
    hide Assembling, LineHandled;
    if input == "" {
      assert received + input == received;
    } else {
      var n := ToRead(s, bufferSize, |input|);
      ChunkKeeps(s, contentLength, isForm, received, input[..n]);
      ReadKeeps(ChunkRead(s, input[..n]), contentLength, isForm, received + input[..n], input[n..], bufferSize);
      assert received + input[..n] + input[n..] == received + input;
    }
  }

  lemma {:induction false} RunKeeps(s: State, contentLength: nat, isForm: bool, received: string, inputs: seq<string>, bufferSize: nat)
    requires Assembling(s, contentLength, isForm, received)
    requires 0 < bufferSize && 0 < contentLength
    ensures Assembling(Received(s, inputs, bufferSize), contentLength, isForm, received + Concat(inputs))
    decreases |inputs|
  {
    hide Assembling, ReadAll;
    if inputs == [] {
      assert received + Concat(inputs) == received;
    } else {
      ReadKeeps(s, contentLength, isForm, received, inputs[0], bufferSize);
      RunKeeps(ReadAll(s, inputs[0], bufferSize), contentLength, isForm, received + inputs[0], inputs[1..], bufferSize);
      assert received + inputs[0] + Concat(inputs[1..]) == received + Concat(inputs);
    }
  }

  /** However the bytes after the blank line arrive, the reader's budget is the number of missing
      bytes, nothing is handled before the body is there, and then the body is handled once and
      whole, with the bytes after it passed on. */
  lemma BodyArrives(contentLength: nat, isForm: bool, inputs: seq<string>, bufferSize: nat)
    requires 0 < bufferSize && 0 < contentLength
    ensures var s, all := Received(Waiting(contentLength, isForm), inputs, bufferSize), Concat(inputs);
            && s.maxRead == s.lengthRemaining
            && (|all| < contentLength ==>
                  s.handled == [] && s.content == all && s.lengthRemaining == contentLength - |all|)
            && (contentLength <= |all| ==>
                  && s.handled == [Absorbed(all[..contentLength], isForm)]
                  && s.passedOn == all[contentLength..] && s.maxRead == 0)
  {
    hide ParametersOf, Received;
    RunKeeps(Waiting(contentLength, isForm), contentLength, isForm, "", inputs, bufferSize);
    assert "" + Concat(inputs) == Concat(inputs);
  }

  // ---- Body bytes that are already buffered at the blank line ----

  /** The bytes after the blank line are still cut at newlines; a last empty piece is not passed. */
  function Fed(rest: string): seq<string> {
    var p := Pieces(rest, "\n");
    if p[|p| - 1] == "" then p[..|p| - 1] else p
  }

  function LinesHandled(s: State, lines: seq<string>): State
    decreases |lines|
  {
    if lines == [] then s else LinesHandled(LineHandled(s, lines[0]), lines[1..])
  }

  /** The state after the blank line when `rest` was buffered with it. */
  function WaitingAfter(contentLength: nat, isForm: bool, rest: string): State {
    LinesHandled(Waiting(contentLength, isForm), Fed(rest))
  }

  lemma {:induction false} MissingNeverGrows(s: State, lines: seq<string>)
    requires s.mode != Headers
    ensures LinesHandled(s, lines).maxRead == s.maxRead
    ensures LinesHandled(s, lines).lengthRemaining <= s.lengthRemaining
    ensures s.mode == Content && 0 < s.lengthRemaining ==>
              (LinesHandled(s, lines).lengthRemaining == s.lengthRemaining
               <==> AllEmpty(lines))
    decreases |lines|
  {
    hide ParametersOf;
    if lines != [] {
      MissingNeverGrows(LineHandled(s, lines[0]), lines[1..]);
      assert AllEmpty(lines) <==> lines[0] == "" && AllEmpty(lines[1..]);
    }
  }

  /** The request while it takes lines and chunks that together are no longer than the body; the
      reader's budget plays no part. */
  ghost predicate Taking(s: State, contentLength: nat, isForm: bool, received: string) {
    && |received| <= contentLength && s.isForm == isForm
    && if |received| < contentLength then
         && s.mode == Content && s.lengthRemaining == contentLength - |received|
         && s.content == received && s.form == Some(map[]) && s.handled == []
       else
         s.mode == Method && s.handled == [Absorbed(received, isForm)]
  }

  lemma LineTaken(s: State, contentLength: nat, isForm: bool, received: string, line: string)
    requires Taking(s, contentLength, isForm, received) && |received| + |line| <= contentLength
    ensures Taking(LineHandled(s, line), contentLength, isForm, received + line)
  {
    hide ParametersOf;
    assert line == "" ==> received + line == received;
  }

  lemma ChunkTaken(s: State, contentLength: nat, isForm: bool, received: string, chunk: string)
    requires Taking(s, contentLength, isForm, received) && |received| + |chunk| <= contentLength
    requires s.maxRead == 0 || |chunk| <= s.maxRead
    ensures Taking(ChunkRead(s, chunk), contentLength, isForm, received + chunk)
  {
    LineTaken(if 0 < s.maxRead then s.(maxRead := s.maxRead - |chunk|) else s, contentLength, isForm, received, chunk);
    hide LineHandled, Absorbed;
  }

  lemma {:induction false} LinesTaken(s: State, contentLength: nat, isForm: bool, received: string, lines: seq<string>)
    requires Taking(s, contentLength, isForm, received) && |received| + |Concat(lines)| <= contentLength
    ensures Taking(LinesHandled(s, lines), contentLength, isForm, received + Concat(lines))
    decreases |lines|
  {
    hide Taking, LineHandled;
    if lines == [] {
      assert received + Concat(lines) == received;
    } else {
      LineTaken(s, contentLength, isForm, received, lines[0]);
      LinesTaken(LineHandled(s, lines[0]), contentLength, isForm, received + lines[0], lines[1..]);
      assert received + lines[0] + Concat(lines[1..]) == received + Concat(lines);
    }
  }

  lemma {:induction false} InputTaken(s: State, contentLength: nat, isForm: bool, received: string, input: string, bufferSize: nat)
    requires Taking(s, contentLength, isForm, received) && |received| + |input| <= contentLength && 0 < bufferSize
    ensures Taking(ReadAll(s, input, bufferSize), contentLength, isForm, received + input)
    decreases |input|
  {
    hide Taking, LineHandled;
    if input == "" {
      assert received + input == received;
    } else {
      var n := ToRead(s, bufferSize, |input|);
      ChunkTaken(s, contentLength, isForm, received, input[..n]);
      InputTaken(ChunkRead(s, input[..n]), contentLength, isForm, received + input[..n], input[n..], bufferSize);
      assert received + input[..n] + input[n..] == received + input;
    }
  }

  lemma {:induction false} RunTaken(s: State, contentLength: nat, isForm: bool, received: string, inputs: seq<string>, bufferSize: nat)
    requires Taking(s, contentLength, isForm, received)
    requires |received| + |Concat(inputs)| <= contentLength && 0 < bufferSize
    ensures Taking(Received(s, inputs, bufferSize), contentLength, isForm, received + Concat(inputs))
    decreases |inputs|
  {
    hide Taking, ReadAll;
    if inputs == [] {
      assert received + Concat(inputs) == received;
    } else {
      InputTaken(s, contentLength, isForm, received, inputs[0], bufferSize);
      RunTaken(ReadAll(s, inputs[0], bufferSize), contentLength, isForm, received + inputs[0], inputs[1..], bufferSize);
      assert received + inputs[0] + Concat(inputs[1..]) == received + Concat(inputs);
    }
  }

  lemma {:induction false} ConcatSnoc(p: seq<string>, last: string)
    ensures Concat(p + [last]) == Concat(p) + last
  {
    if p == [] {
      assert p + [last] == [last];
    } else {
      assert (p + [last])[1..] == p[1..] + [last];
      ConcatSnoc(p[1..], last);
    }
  }

  lemma {:induction false} JoinAndConcat(p: seq<string>, d: char)
    requires p != []
    ensures |Join(p, [d])| == |Concat(p)| + |p| - 1
  {
    if |p| == 1 {
      assert Concat(p) == p[0] + Concat(p[1..]);
    } else {
      JoinAndConcat(p[1..], d);
    }
  }

  /** Buffered bytes are passed on whole exactly when they hold no newline; otherwise they get fewer. */
  lemma FedConcat(rest: string)
    ensures if '\n' in rest then |Concat(Fed(rest))| < |rest| else Concat(Fed(rest)) == rest
  {
    var p := Pieces(rest, "\n");
    assert p == p[..|p| - 1] + [p[|p| - 1]];
    ConcatSnoc(p[..|p| - 1], p[|p| - 1]);
    assert Concat(p[..|p| - 1]) + "" == Concat(p[..|p| - 1]);
    assert Concat(Fed(rest)) == Concat(p);
    PiecesRejoin(rest, "\n");
    JoinAndConcat(p, '\n');
    if '\n' in rest {
      FindFirst(rest, "\n", 0);
      var i :| 0 <= i < |rest| && rest[i] == '\n';
      AtCharacter(rest, '\n', i);
    } else {
      CharacterNotFound(rest, '\n', 0);
      assert p == [rest[0..]] && rest[0..] == rest;
      assert Concat([rest]) == rest + Concat([]);
    }
  }

  /** A body of exactly the announced length, some of it buffered with the blank line and the rest in
      any reads: it is handled, once and whole, if and only if the buffered part holds no newline;
      otherwise it is never handled. */
  lemma BodyArrivesExactly(rest: string, inputs: seq<string>, isForm: bool, bufferSize: nat)
    requires 0 < bufferSize && 0 < |rest| + |Concat(inputs)|
    ensures var contentLength := |rest| + |Concat(inputs)|;
            Received(WaitingAfter(contentLength, isForm, rest), inputs, bufferSize).handled
            == if '\n' in rest then [] else [Absorbed(rest + Concat(inputs), isForm)]
  {
    var contentLength := |rest| + |Concat(inputs)|;
    var s := Waiting(contentLength, isForm);
    FedConcat(rest);
    assert Taking(s, contentLength, isForm, "");
    hide Taking, Fed, Received, ParametersOf, Waiting;
    LinesTaken(s, contentLength, isForm, "", Fed(rest));
    assert "" + Concat(Fed(rest)) == Concat(Fed(rest));
    RunTaken(WaitingAfter(contentLength, isForm, rest), contentLength, isForm, Concat(Fed(rest)), inputs, bufferSize);
    TakenHandled(Received(WaitingAfter(contentLength, isForm, rest), inputs, bufferSize), contentLength, isForm,
                 Concat(Fed(rest)) + Concat(inputs));
  }

  lemma TakenHandled(s: State, contentLength: nat, isForm: bool, received: string)
    requires Taking(s, contentLength, isForm, received)
    ensures s.handled == if |received| < contentLength then [] else [Absorbed(received, isForm)]
  {
    hide ParametersOf;
  }

  // ---- More bytes than the body behind a buffered part ----

  /** The line that completes a body with r bytes missing is taken right: it brings just those bytes, or
      the same bytes twice, since of a longer line the request keeps what follows the missing bytes. */
  predicate RightLine(line: string, r: nat) {
    |line| == r || (|line| == 2 * r && line[r..] == line[..r])
  }

  /** The read that completes the body takes its chunks of b bytes right, when r bytes are missing and
      the budget exceeds that by k. */
  predicate RightInput(input: string, b: nat, r: nat, k: nat)
    requires 0 < b && r <= |input|
    decreases |input|
  {
    if b < r then RightInput(input[b..], b, r - b, k)
    else RightLine(input[..Min(Min(b, |input|), r + k)], r)
  }

  /** The reads complete a body with r bytes missing, and take it right. */
  predicate RightRun(inputs: seq<string>, b: nat, r: nat, k: nat)
    requires 0 < b
    decreases |inputs|
  {
    inputs != []
    && if |inputs[0]| < r then RightRun(inputs[1..], b, r - |inputs[0]|, k)
       else RightInput(inputs[0], b, r, k)
  }

  /** The request is done. It has the body if it was completed `right`, and only then, unless a form hides
      the difference. */
  ghost predicate Completed(s: State, body: string, isForm: bool, right: bool) {
    && s.mode == Method
    && (right ==> s.handled == [Absorbed(body, isForm)])
    && (!isForm && s.handled == [Absorbed(body, false)] ==> right)
  }

  /** A chunk longer than what is missing: the request keeps its end instead of its beginning. */
  lemma OverrunExactly(s: State, line: string)
    requires s.mode == Content && !s.isForm && 0 < s.lengthRemaining < |line|
    ensures var content := LineHandled(s, line).content;
            content == s.content + line[..s.lengthRemaining] <==> line[s.lengthRemaining..] == line[..s.lengthRemaining]
  {
    var end, start := line[s.lengthRemaining..], line[..s.lengthRemaining];
    assert (s.content + end)[|s.content|..] == end && (s.content + start)[|s.content|..] == start;
  }

  /** A completing line, right or wrong. */
  lemma LineCompletes(s: State, contentLength: nat, isForm: bool, received: string, line: string)
    requires Taking(s, contentLength, isForm, received) && |received| < contentLength <= |received| + |line|
    ensures Completed(LineHandled(s, line), (received + line)[..contentLength], isForm,
                      RightLine(line, contentLength - |received|))
  {
    hide ParametersOf;
    var r := contentLength - |received|;
    var last := if r < |line| then line[r..] else line;
    var t := LineHandled(s, line);
    assert t.mode == Method && t.handled == [Absorbed(received + last, isForm)];
    assert !isForm ==> t.content == received + last;
    assert (received + line)[..contentLength] == received + line[..r];
    assert |line| == r ==> line[..r] == line;
    hide LineHandled;
    if r < |line| && !isForm {
      OverrunExactly(s, line);
    }
  }

  /** Taking, with the budget k above the missing bytes. */
  ghost predicate Budgeted(s: State, contentLength: nat, isForm: bool, received: string, k: nat) {
    && Taking(s, contentLength, isForm, received) && |received| < contentLength
    && s.maxRead == contentLength - |received| + k
  }

  lemma ChunkBudgeted(s: State, contentLength: nat, isForm: bool, received: string, k: nat, chunk: string)
    requires Budgeted(s, contentLength, isForm, received, k) && |received| + |chunk| < contentLength
    ensures Budgeted(ChunkRead(s, chunk), contentLength, isForm, received + chunk, k)
  {
    ChunkTaken(s, contentLength, isForm, received, chunk);
    hide ParametersOf;
  }

  lemma {:induction false} InputBudgeted(s: State, contentLength: nat, isForm: bool, received: string, k: nat,
                                         input: string, b: nat)
    requires Budgeted(s, contentLength, isForm, received, k) && |received| + |input| < contentLength && 0 < b
    ensures Budgeted(ReadAll(s, input, b), contentLength, isForm, received + input, k)
    decreases |input|
  {
    if input == "" {
      assert received + input == received;
    } else {
      var n := ToRead(s, b, |input|);
      hide Budgeted, LineHandled;
      ChunkBudgeted(s, contentLength, isForm, received, k, input[..n]);
      InputBudgeted(ChunkRead(s, input[..n]), contentLength, isForm, received + input[..n], k, input[n..], b);
      assert received + input[..n] + input[n..] == received + input;
    }
  }

  lemma {:induction false} InputCompletes(s: State, contentLength: nat, isForm: bool, received: string, k: nat,
                                          input: string, b: nat)
    requires Budgeted(s, contentLength, isForm, received, k) && contentLength <= |received| + |input| && 0 < b
    ensures Completed(ReadAll(s, input, b), (received + input)[..contentLength], isForm,
                      RightInput(input, b, contentLength - |received|, k))
    decreases |input|
  {
    if contentLength - |received| <= b {
      LastChunk(s, contentLength, isForm, received, k, input, b);
    } else {
      var n := ToRead(s, b, |input|);
      var chunk, more := input[..n], input[n..];
      assert n == b && n < |input|;
      ChunkBudgeted(s, contentLength, isForm, received, k, chunk);
      hide Budgeted, Completed, LineHandled, RightLine;
      InputCompletes(ChunkRead(s, chunk), contentLength, isForm, received + chunk, k, more, b);
      assert received + chunk + more == received + input;
    }
  }

  lemma LastChunk(s: State, contentLength: nat, isForm: bool, received: string, k: nat, input: string, b: nat)
    requires Budgeted(s, contentLength, isForm, received, k)
    requires contentLength <= |received| + |input| && contentLength - |received| <= b
    ensures Completed(ReadAll(s, input, b), (received + input)[..contentLength], isForm,
                      RightInput(input, b, contentLength - |received|, k))
  {
    var r := contentLength - |received|;
    var n := ToRead(s, b, |input|);
    var chunk, more := input[..n], input[n..];
    assert n == Min(Min(b, |input|), r + k);
    var t := s.(maxRead := s.maxRead - n);
    SameTaking(s, t, contentLength, isForm, received);
    assert (received + chunk)[..contentLength] == (received + input)[..contentLength];
    assert ReadAll(s, input, b) == ReadAll(LineHandled(t, chunk), more, b);
    hide Taking, LineHandled, Completed, RightLine, ReadAll;
    LineCompletes(t, contentLength, isForm, received, chunk);
    InputPassedOn(LineHandled(t, chunk), (received + input)[..contentLength], isForm, RightLine(chunk, r), more, b);
  }

  lemma SameTaking(s: State, t: State, contentLength: nat, isForm: bool, received: string)
    requires Taking(s, contentLength, isForm, received) && t == s.(maxRead := t.maxRead)
    ensures Taking(t, contentLength, isForm, received)
  {
  }

  /** What arrives after the request is done is passed on. */
  lemma InputPassedOn(s: State, body: string, isForm: bool, right: bool, input: string, b: nat)
    requires Completed(s, body, isForm, right) && 0 < b
    ensures Completed(ReadAll(s, input, b), body, isForm, right)
  {
    hide Absorbed;
    PassesOn(s, input, b);
  }

  lemma {:induction false} RunPassedOn(s: State, body: string, isForm: bool, right: bool, inputs: seq<string>, b: nat)
    requires Completed(s, body, isForm, right) && 0 < b
    ensures Completed(Received(s, inputs, b), body, isForm, right)
    decreases |inputs|
  {
    hide Completed, ReadAll;
    if inputs != [] {
      InputPassedOn(s, body, isForm, right, inputs[0], b);
      RunPassedOn(ReadAll(s, inputs[0], b), body, isForm, right, inputs[1..], b);
    }
  }

  lemma {:induction false} RunCompletes(s: State, contentLength: nat, isForm: bool, received: string, k: nat,
                                        inputs: seq<string>, b: nat)
    requires Budgeted(s, contentLength, isForm, received, k) && contentLength <= |received| + |Concat(inputs)| && 0 < b
    ensures Completed(Received(s, inputs, b), (received + Concat(inputs))[..contentLength], isForm,
                      RightRun(inputs, b, contentLength - |received|, k))
    decreases |inputs|
  {
    assert |received| < contentLength && inputs != [];
    hide Budgeted, Completed, RightInput, ReadAll;
    var first, rest := inputs[0], inputs[1..];
    assert received + Concat(inputs) == received + first + Concat(rest);
    if |received| + |first| < contentLength {
      InputBudgeted(s, contentLength, isForm, received, k, first, b);
      RunCompletes(ReadAll(s, first, b), contentLength, isForm, received + first, k, rest, b);
    } else {
      var body := (received + first)[..contentLength];
      assert (received + Concat(inputs))[..contentLength] == body;
      InputCompletes(s, contentLength, isForm, received, k, first, b);
      RunPassedOn(ReadAll(s, first, b), body, isForm, RightInput(first, b, contentLength - |received|, k), rest, b);
    }
  }

  /** The buffered lines complete a body with r bytes missing, and take it right. */
  predicate RightLines(lines: seq<string>, r: nat)
    decreases |lines|
  {
    lines != [] && if |lines[0]| < r then RightLines(lines[1..], r - |lines[0]|) else RightLine(lines[0], r)
  }

  lemma {:induction false} LinesComplete(s: State, contentLength: nat, isForm: bool, received: string, lines: seq<string>)
    requires Taking(s, contentLength, isForm, received)
    requires |received| < contentLength <= |received| + |Concat(lines)|
    ensures Completed(LinesHandled(s, lines), (received + Concat(lines))[..contentLength], isForm,
                      RightLines(lines, contentLength - |received|))
    decreases |lines|
  {
    assert lines != [];
    hide Taking, LineHandled, RightLine;
    var first, rest := lines[0], lines[1..];
    assert received + Concat(lines) == received + first + Concat(rest);
    if |received| + |first| < contentLength {
      LineTaken(s, contentLength, isForm, received, first);
      LinesComplete(LineHandled(s, first), contentLength, isForm, received + first, rest);
    } else {
      assert (received + Concat(lines))[..contentLength] == (received + first)[..contentLength];
      LineCompletes(s, contentLength, isForm, received, first);
      LinesPass(LineHandled(s, first), rest);
    }
  }

  /** When the body, with `rest` buffered at the blank line, is taken right: by the buffered lines if they
      complete it, else by the way the reads cut the rest of the stream. */
  predicate TakenRight(contentLength: nat, rest: string, inputs: seq<string>, b: nat)
    requires 0 < b
  {
    var passed := |Concat(Fed(rest))|;
    if contentLength <= passed then RightLines(Fed(rest), contentLength)
    else RightRun(inputs, b, contentLength - passed, passed)
  }

  /** Any buffered part, any number of bytes behind the body: the first request handled has the first
      bytes passed on as its content if and only if the stream is cut right. */
  lemma FedBodyExactly(contentLength: nat, isForm: bool, rest: string, inputs: seq<string>, b: nat)
    requires 0 < b && 0 < contentLength <= |Concat(Fed(rest))| + |Concat(inputs)|
    ensures var handled := Received(WaitingAfter(contentLength, isForm, rest), inputs, b).handled;
            var body := (Concat(Fed(rest)) + Concat(inputs))[..contentLength];
            && (TakenRight(contentLength, rest, inputs, b) ==> handled == [Absorbed(body, isForm)])
            && (!isForm ==> (handled == [Absorbed(body, isForm)] <==> TakenRight(contentLength, rest, inputs, b)))
  {
    var fed, s := Concat(Fed(rest)), Waiting(contentLength, isForm);
    var body := (fed + Concat(inputs))[..contentLength];
    assert Taking(s, contentLength, isForm, "") && s.maxRead == contentLength && s.mode == Content;
    hide Taking, Fed, Received, ParametersOf, Waiting, RightRun, RightLines, LinesHandled;
    assert "" + fed == fed;
    if contentLength <= |fed| {
      LinesComplete(s, contentLength, isForm, "", Fed(rest));
      assert fed[..contentLength] == body;
      RunPassedOn(WaitingAfter(contentLength, isForm, rest), body, isForm, RightLines(Fed(rest), contentLength), inputs, b);
    } else {
      LinesTaken(s, contentLength, isForm, "", Fed(rest));
      MissingNeverGrows(s, Fed(rest));
      RunCompletes(WaitingAfter(contentLength, isForm, rest), contentLength, isForm, fed, |fed|, inputs, b);
    }
  }

  /** Without a newline in the buffered part all of the stream is passed on, so this is the body. */
  lemma BodyRightExactly(contentLength: nat, isForm: bool, rest: string, inputs: seq<string>, b: nat)
    requires 0 < b && '\n' !in rest && 0 < contentLength <= |rest| + |Concat(inputs)|
    ensures var handled := Received(WaitingAfter(contentLength, isForm, rest), inputs, b).handled;
            var body := (rest + Concat(inputs))[..contentLength];
            && (TakenRight(contentLength, rest, inputs, b) ==> handled == [Absorbed(body, isForm)])
            && (!isForm ==> (handled == [Absorbed(body, isForm)] <==> TakenRight(contentLength, rest, inputs, b)))
    ensures TakenRight(contentLength, rest, inputs, b)
       <==> if contentLength <= |rest| then RightLine(rest, contentLength)
            else RightRun(inputs, b, contentLength - |rest|, |rest|)
  {
    FedConcat(rest);
    if contentLength <= |rest| {
      OneLineFed(rest);
    }
    hide Fed, Received, RightRun, WaitingAfter, ParametersOf, RightLine;
    FedBodyExactly(contentLength, isForm, rest, inputs, b);
  }

  lemma OneLineFed(rest: string)
    requires '\n' !in rest && rest != ""
    ensures Fed(rest) == [rest]
  {
    CharacterNotFound(rest, '\n', 0);
    assert rest[0..] == rest;
  }

  /** With nothing buffered the budget has no excess, and every cutting is right. */
  lemma {:induction false} NoExcessIsRight(inputs: seq<string>, b: nat, r: nat)
    requires 0 < b && 0 < r <= |Concat(inputs)|
    ensures RightRun(inputs, b, r, 0)
    decreases |inputs|
  {
    if |inputs[0]| < r {
      NoExcessIsRight(inputs[1..], b, r - |inputs[0]|);
    } else {
      NoExcessInput(inputs[0], b, r);
    }
  }

  lemma {:induction false} NoExcessInput(input: string, b: nat, r: nat)
    requires 0 < b && 0 < r <= |input|
    ensures RightInput(input, b, r, 0)
    decreases |input|
  {
    if b < r {
      NoExcessInput(input[b..], b, r - b);
    }
  }

  /** A run that goes wrong: one byte of a two-byte body is buffered, and the next read brings the other
      together with a byte that does not belong to it. */
  lemma BodyCanBeWrong()
    ensures Received(WaitingAfter(2, false, "a"), ["bc"], 8).handled != [Absorbed("ab", false)]
  {
    hide Received, WaitingAfter, Absorbed;
    assert Concat(["bc"]) == "bc" + Concat([]);
    assert "a" + Concat(["bc"]) == "abc" && "abc"[..2] == "ab";
    assert ["bc"][0][..2] == "bc" && "bc"[1..] == "c" && "bc"[..1] == "b";
    BodyRightExactly(2, false, "a", ["bc"], 8);
  }

  // ---- Forms ----

  /** A form sent with escaped fields arrives as its fields, however it is cut, and whatever part of it
      is buffered with the blank line: an escaped form holds no newline. */
  lemma FormArrives(entries: seq<Entry>, m: Parameters, rest: string, inputs: seq<string>, bufferSize: nat)
    requires entries != [] && Lists(entries, m) && 0 < bufferSize
    requires forall e :: e in entries ==> Url.Octets(e.0) && Url.Octets(e.1) && e != ("", "")
    requires rest + Concat(inputs) == Join(Texts(EscapedEntries(entries)), "&")
    ensures var contentLength := |rest| + |Concat(inputs)|;
            Received(WaitingAfter(contentLength, true, rest), inputs, bufferSize).handled == [Handled("", Some(m))]
  {
    hide Received, ParametersOf, WaitingAfter, MapOf, Lists, Join;
    var body := rest + Concat(inputs);
    FormNotEmpty(entries);
    FormHasNoNewline(entries);
    assert forall i :: 0 <= i < |rest| ==> rest[i] == body[i] && body[i] in body;
    BodyArrivesExactly(rest, inputs, true, bufferSize);
    FormRead(entries);
    ListsMap(entries, m);
  }

  lemma FormNotEmpty(entries: seq<Entry>)
    requires entries != []
    requires forall e :: e in entries ==> Url.Octets(e.0) && Url.Octets(e.1) && e != ("", "")
    ensures Join(Texts(EscapedEntries(entries)), "&") != ""
  {
    EscapedReads(entries[0]);
    assert Text(EscapedEntries(entries)[0]) != "";
  }

  lemma {:induction false} FormHasNoNewline(entries: seq<Entry>)
    requires entries != []
    requires forall e :: e in entries ==> Url.Octets(e.0) && Url.Octets(e.1)
    ensures '\n' !in Join(Texts(EscapedEntries(entries)), "&")
    decreases |entries|
  {
    var e := entries[0];
    assert e in entries;
    Url.EscapedSafe(e.0);
    Url.EscapedSafe(e.1);
    assert '\n' !in Text((Url.Escaped(e.0), Url.Escaped(e.1)));
    hide Url.Escaped, Text;
    if |entries| != 1 {
      FormHasNoNewline(entries[1..]);
    }
  }

  lemma FormRead(entries: seq<Entry>)
    requires entries != []
    requires forall e :: e in entries ==> Url.Octets(e.0) && Url.Octets(e.1) && e != ("", "")
    ensures ParametersOf(Join(Texts(EscapedEntries(entries)), "&"), false) == Some(MapOf(entries, map[]))
  {
    var raw := EscapedEntries(entries);
    AllEscapedRead(entries);
    TextsHaveNoAmpersand(raw, entries);
    SplitUndoesJoin(Texts(raw), '&');
    TextsAdded(map[], raw, entries);
  }

  // ---- The budget ----

  predicate Newlines(s: string) {
    forall i :: 0 <= i < |s| ==> s[i] == '\n'
  }

  predicate AllEmpty(p: seq<string>) {
    forall i :: 0 <= i < |p| ==> p[i] == ""
  }

  lemma {:induction false} PiecesOfNewlines(s: string, start: nat)
    requires Newlines(s) && start <= |s|
    ensures AllEmpty(PiecesFrom(s, "\n", start))
    decreases |s| - start
  {
    if start == |s| {
      CharacterNotFound(s, '\n', start);
    } else {
      CharacterFound(s, '\n', start, start);
      PiecesOfNewlines(s, start + 1);
    }
  }

  lemma {:induction false} JoinOfEmpty(p: seq<string>)
    requires p != [] && AllEmpty(p)
    ensures Newlines(Join(p, "\n"))
  {
    if |p| != 1 {
      JoinOfEmpty(p[1..]);
    }
  }

  lemma FedEmptyExactly(rest: string)
    ensures AllEmpty(Fed(rest)) <==> Newlines(rest)
  {
    var p := Pieces(rest, "\n");
    if Newlines(rest) {
      PiecesOfNewlines(rest, 0);
    }
    hide Pieces;
    if AllEmpty(Fed(rest)) {
      forall i | 0 <= i < |p|
        ensures p[i] == ""
      {
        assert i < |Fed(rest)| ==> Fed(rest)[i] == p[i];
      }
      JoinOfEmpty(p);
      PiecesRejoin(rest, "\n");
    }
  }

  /** The budget and the count agree after the blank line exactly when nothing but newlines was
      buffered behind it. */
  lemma BudgetAgreesExactly(contentLength: nat, isForm: bool, rest: string)
    requires 0 < contentLength
    ensures var s := WaitingAfter(contentLength, isForm, rest);
            s.maxRead == s.lengthRemaining <==> Newlines(rest)
  {
    hide ParametersOf;
    MissingNeverGrows(Waiting(contentLength, isForm), Fed(rest));
    FedEmptyExactly(rest);
  }

  /** With length 0 (a Content-Length of 0, or a Content-Length header that is not spelled that way,
      whose value is ignored) the first chunk, whatever its size, is taken as the whole body. */
  lemma FirstChunkIsBody(isForm: bool, input: string, bufferSize: nat)
    requires 0 < bufferSize && input != ""
    ensures var s := ReadAll(Waiting(0, isForm), input, bufferSize);
            s.handled == [Absorbed(input[..Min(bufferSize, |input|)], isForm)]
    ensures WaitingAfter(0, isForm, "") == Waiting(0, isForm)
  {
    hide ParametersOf;
    var s := Waiting(0, isForm);
    var n := Min(bufferSize, |input|);
    assert input[..n][0..] == input[..n];
    assert "" + input[..n] == input[..n];
    var t := ChunkRead(s, input[..n]);
    PassesOn(t, input[n..], bufferSize);
  }

  lemma {:induction false} PassesOn(s: State, input: string, bufferSize: nat)
    requires s.mode == Method && 0 < bufferSize
    ensures ReadAll(s, input, bufferSize).handled == s.handled && ReadAll(s, input, bufferSize).mode == Method
    decreases |input|
  {
    if input != "" {
      var n := ToRead(s, bufferSize, |input|);
      PassesOn(ChunkRead(s, input[..n]), input[n..], bufferSize);
    }
  }

  lemma {:induction false} RunPasses(s: State, inputs: seq<string>, bufferSize: nat)
    requires s.mode == Method && 0 < bufferSize
    ensures Received(s, inputs, bufferSize).handled == s.handled
    decreases |inputs|
  {
    hide ReadAll;
    if inputs != [] {
      PassesOn(s, inputs[0], bufferSize);
      RunPasses(ReadAll(s, inputs[0], bufferSize), inputs[1..], bufferSize);
    }
  }

  lemma {:induction false} LinesPass(s: State, lines: seq<string>)
    requires s.mode == Method
    ensures LinesHandled(s, lines).handled == s.handled && LinesHandled(s, lines).mode == Method
    decreases |lines|
  {
    if lines != [] {
      LinesPass(LineHandled(s, lines[0]), lines[1..]);
    }
  }

  /** What stands before the first newline. */
  function FirstLine(s: string): string {
    match Find(s, "\n", 0)
    case None => s
    case Some(at) => s[..at]
  }

  /** With length 0 and something buffered, the buffered bytes up to the first newline, possibly none, are
      taken as the whole body. */
  lemma FirstLineIsBody(isForm: bool, rest: string, inputs: seq<string>, bufferSize: nat)
    requires 0 < bufferSize && rest != ""
    ensures Received(WaitingAfter(0, isForm, rest), inputs, bufferSize).handled == [Absorbed(FirstLine(rest), isForm)]
  {
    hide ParametersOf, Received;
    var s, lines := Waiting(0, isForm), Fed(rest);
    FirstFed(rest);
    var t := LineHandled(s, lines[0]);
    assert "" + lines[0] == lines[0] && lines[0][0..] == lines[0];
    assert t.mode == Method && t.handled == [Absorbed(FirstLine(rest), isForm)];
    hide LineHandled, Fed, FirstLine, Absorbed;
    LinesPass(t, lines[1..]);
    RunPasses(WaitingAfter(0, isForm, rest), inputs, bufferSize);
  }

  lemma FirstFed(rest: string)
    requires rest != ""
    ensures Fed(rest) != [] && Fed(rest)[0] == FirstLine(rest)
  {
    var p := Pieces(rest, "\n");
    if Find(rest, "\n", 0) == None {
      assert p == [rest[0..]] && rest[0..] == rest;
    } else {
      assert |p| >= 2;
    }
  }
}
