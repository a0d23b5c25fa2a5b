/**
 The AG-UI translator: a transducer from transport and Overseer events to AG-UI events that
 frames streamed text and thinking with START and END events. New message ids are supplied with
 the input that may need one; timestamps are not modelled.
 */
module Translator {
  import opened Wrappers

  type Id = nat

  datatype Visibility = Silent | OverseerOnly | Agents

  datatype Input =
    | StreamDelta(text: string, newId: Id)
    | StepStart(session: string)
    | StepFinish(reason: string)
    | ToolExecuting(call: Id, tool: string)
    | ToolUse(call: Id, output: string, newId: Id)
    | RunResult
    | Error(message: string)
    | Thinking(text: string, fromOverseer: bool)
    | OverseerRunStarted
    | OverseerNotice(name: string)
    | Skipped                                       // events without a translation

  datatype Output =
    | TextStart(id: Id) | TextContent(id: Id, delta: string) | TextEnd(id: Id)
    | ThinkingStart | ThinkingContent(delta: string) | ThinkingEnd
    | StepStarted(name: string) | StepFinished(name: string)
    | ToolCallStart(call: Id, tool: string, parent: Option<Id>)
    | ToolCallEnd(call: Id) | ToolCallResult(id: Id, call: Id, content: string)
    | RunStarted | RunFinished | RunError(message: string) | Custom(name: string)

  datatype State = State(textOpen: bool, currentId: Option<Id>, thinkingOpen: bool)

  const INITIAL := State(false, None, false)

  predicate Shown(visibility: Visibility, fromOverseer: bool) {
    visibility == Agents || (visibility == OverseerOnly && fromOverseer)
  }

  // ---- the translator -------------------------------------------------------------------

  function CloseText(s: State): (State, seq<Output>) {
    if s.textOpen && s.currentId.Some? then
      (s.(textOpen := false, currentId := None), [TextEnd(s.currentId.value)])
    else (s, [])
  }

  function CloseThinking(s: State): (State, seq<Output>) {
    if s.thinkingOpen then (s.(thinkingOpen := false), [ThinkingEnd]) else (s, [])
  }

  function CloseBoth(s: State): (State, seq<Output>) {
    var (s1, ended) := CloseThinking(s);
    var (s2, closed) := CloseText(s1);
    (s2, ended + closed)
  }

  /** Closes whatever is open and then emits one event. */
  function Closing(s: State, o: Output): (State, seq<Output>) {
    (CloseBoth(s).0, CloseBoth(s).1 + [o])
  }

  function Handle(visibility: Visibility, s: State, e: Input): (State, seq<Output>) {
    match e
    case StreamDelta(text, newId) =>
      var (s1, ended) := CloseThinking(s);
      if s1.textOpen then
        (s1, ended + if s1.currentId.Some? then [TextContent(s1.currentId.value, text)] else [])
      else (s1.(textOpen := true, currentId := Some(newId)), ended + [TextStart(newId)] + [TextContent(newId, text)])
    case StepStart(session) => Closing(s, StepStarted(session))
    case StepFinish(reason) => Closing(s, StepFinished(reason))
    case ToolExecuting(call, tool) => Closing(s, ToolCallStart(call, tool, CloseBoth(s).0.currentId))
    case ToolUse(call, output, newId) => (s, [ToolCallEnd(call), ToolCallResult(newId, call, output)])
    case RunResult => Closing(s, RunFinished)
    case Error(message) => (s, [RunError(message)])
    case Thinking(text, fromOverseer) =>
      if !Shown(visibility, fromOverseer) then (s, [])
      else
        var (s1, closed) := CloseText(s);
        (s1.(thinkingOpen := true),
         closed + (if s1.thinkingOpen then [] else [ThinkingStart]) + [ThinkingContent(text)])
    case OverseerRunStarted => (s, [RunStarted])
    case OverseerNotice(name) => (s, [Custom(name)])
    case Skipped => (s, [])
  }

  class AGUITranslator {
    const visibility: Visibility
    var textOpen: bool
    var currentId: Option<Id>
    var thinkingOpen: bool

    function Model(): State
      reads this
    {
      State(textOpen, currentId, thinkingOpen)
    }

    constructor (visibility: Visibility)
      ensures this.visibility == visibility && Model() == INITIAL
    {
      this.visibility := visibility;
      textOpen, currentId, thinkingOpen := false, None, false;
    }

    method CloseTextMessage() returns (results: seq<Output>)
      modifies this
      ensures (Model(), results) == CloseText(old(Model()))
    {
      if textOpen && currentId.Some? {
        results := [TextEnd(currentId.value)];
        textOpen, currentId := false, None;
      } else {
        results := [];
      }
    }

    method CloseThinkingMessage() returns (results: seq<Output>)
      modifies this
      ensures (Model(), results) == CloseThinking(old(Model()))
    {
      if thinkingOpen {
        thinkingOpen := false;
        results := [ThinkingEnd];
      } else {
        results := [];
      }
    }

    method HandleStreamDelta(text: string, newId: Id) returns (results: seq<Output>)
      requires Coherent(Model())
      modifies this
      ensures (Model(), results) == Handle(visibility, old(Model()), StreamDelta(text, newId))
    {
      results := CloseThinkingMessage();
      if !textOpen {
        currentId := Some(newId);
        textOpen := true;
        results := results + [TextStart(newId)];
      }
      results := results + [TextContent(currentId.value, text)];
    }

    /** The handlers of steps, tool calls and results: close everything, then one event. */
    method HandleClosing(e: Input) returns (results: seq<Output>)
      requires ClosesMessages(e)
      modifies this
      ensures (Model(), results) == Handle(visibility, old(Model()), e)
    {
      results := CloseThinkingMessage();
      var closed := CloseTextMessage();
      results := results + closed;
      match e {
        case StepStart(session) => results := results + [StepStarted(session)];
        case StepFinish(reason) => results := results + [StepFinished(reason)];
        case ToolExecuting(call, tool) => results := results + [ToolCallStart(call, tool, currentId)];
        case RunResult => results := results + [RunFinished];
      }
    }

    method HandleThinking(text: string, fromOverseer: bool) returns (results: seq<Output>)
      modifies this
      ensures (Model(), results) == Handle(visibility, old(Model()), Thinking(text, fromOverseer))
    {
      if visibility == Silent {
        return [];
      }
      if visibility == OverseerOnly && !fromOverseer {
        return [];
      }
      results := CloseTextMessage();
      assert results + [] == results;
      if !thinkingOpen {
        thinkingOpen := true;
        results := results + [ThinkingStart];
      }
      results := results + [ThinkingContent(text)];
    }

    method Translate(e: Input) returns (results: seq<Output>)
      requires Coherent(Model())
      modifies this
      ensures (Model(), results) == Handle(visibility, old(Model()), e) && Coherent(Model())
    {
      HandleKeepsCoherent(visibility, Model(), e);
      match e {
        case StreamDelta(text, newId) => results := HandleStreamDelta(text, newId);
        case Thinking(text, fromOverseer) => results := HandleThinking(text, fromOverseer);
        case ToolUse(call, output, newId) => results := [ToolCallEnd(call), ToolCallResult(newId, call, output)];
        case Error(message) => results := [RunError(message)];
        case OverseerRunStarted => results := [RunStarted];
        case OverseerNotice(name) => results := [Custom(name)];
        case Skipped => results := [];
        case _ => results := HandleClosing(e);
      }
    }
  }

  /** An id is current exactly while text is open, and text and thinking are never both open. */
  predicate Coherent(s: State) {
    (s.textOpen <==> s.currentId.Some?) && !(s.textOpen && s.thinkingOpen)
  }

  lemma HandleKeepsCoherent(visibility: Visibility, s: State, e: Input)
    requires Coherent(s)
    ensures Coherent(Handle(visibility, s, e).0)
  {
  }

  function Run(visibility: Visibility, inputs: seq<Input>): (State, seq<Output>) {
    if inputs == [] then (INITIAL, [])
    else
      var (s, outputs) := Run(visibility, inputs[..|inputs| - 1]);
      var (next, more) := Handle(visibility, s, inputs[|inputs| - 1]);
      (next, outputs + more)
  }

  // ---- a strict consumer of the output --------------------------------------------------

  /**
   What a consumer knows of the stream so far. After a START it waits for the first content;
   after an END it waits for the event for whose sake the message was closed.
   */
  datatype Reader =
    | Idle | TextOpening(id: Id) | InText(id: Id) | TextClosed
    | ThinkingOpening | InThinking | ThinkingClosed | Broken

  /** Any departure from the framing leaves the consumer broken for good. */
  function Read(r: Reader, o: Output): Reader {
    match o
    case TextStart(id) => if r == Idle || r == ThinkingClosed then TextOpening(id) else Broken
    case TextContent(id, _) => if r == TextOpening(id) || r == InText(id) then InText(id) else Broken
    case TextEnd(id) => if r == InText(id) then TextClosed else Broken
    case ThinkingStart => if r == Idle || r == TextClosed then ThinkingOpening else Broken
    case ThinkingContent(_) => if r == ThinkingOpening || r == InThinking then InThinking else Broken
    case ThinkingEnd => if r == InThinking then ThinkingClosed else Broken
    case StepStarted(_) => Between(r)
    case StepFinished(_) => Between(r)
    case ToolCallStart(_, _, parent) => if parent == None then Between(r) else Broken
    case RunFinished => Between(r)
    case _ => if r == Idle || r.InText? || r == InThinking then r else Broken
  }

  function Between(r: Reader): Reader {
    if r == Idle || r == TextClosed || r == ThinkingClosed then Idle else Broken
  }

  function ReadFirst(r: Reader, outputs: seq<Output>, n: nat): Reader
    requires n <= |outputs|
  {
    if n == 0 then r else Read(ReadFirst(r, outputs, n - 1), outputs[n - 1])
  }

  function ReadAll(r: Reader, outputs: seq<Output>): Reader {
    ReadFirst(r, outputs, |outputs|)
  }

  lemma {:induction false} ReadFirstOfConcat(r: Reader, a: seq<Output>, b: seq<Output>, n: nat)
    requires n <= |a|
    ensures ReadFirst(r, a + b, n) == ReadFirst(r, a, n)
  {
    if n > 0 { ReadFirstOfConcat(r, a, b, n - 1); }
  }

  lemma {:induction false} ReadRestOfConcat(r: Reader, a: seq<Output>, b: seq<Output>, n: nat)
    requires n <= |b|
    ensures ReadFirst(r, a + b, |a| + n) == ReadFirst(ReadAll(r, a), b, n)
  {
    if n == 0 { ReadFirstOfConcat(r, a, b, |a|); } else { ReadRestOfConcat(r, a, b, n - 1); }
  }

  lemma ReadConcat(r: Reader, a: seq<Output>, b: seq<Output>)
    ensures ReadAll(r, a + b) == ReadAll(ReadAll(r, a), b)
  {
    ReadRestOfConcat(r, a, b, |b|);
  }

  function ReaderOf(s: State): Reader {
    if s.textOpen && s.currentId.Some? then InText(s.currentId.value)
    else if s.thinkingOpen then InThinking
    else Idle
  }

  lemma One(r: Reader, o: Output)
    ensures ReadAll(r, [o]) == Read(r, o) && Payloads([o]) == PayloadOf(o)
  {
    assert ReadFirst(r, [o], 0) == r && PayloadsFirst([o], 0) == [];
  }

  lemma Two(r: Reader, o: Output, p: Output)
    ensures ReadAll(r, [o, p]) == Read(Read(r, o), p) && Payloads([o, p]) == PayloadOf(o) + PayloadOf(p)
  {
    assert ReadFirst(r, [o, p], 1) == Read(r, o);
    assert PayloadsFirst([o, p], 1) == PayloadOf(o);
  }

  lemma Three(r: Reader, o: Output, p: Output, q: Output)
    ensures ReadAll(r, [o, p, q]) == Read(Read(Read(r, o), p), q)
    ensures Payloads([o, p, q]) == PayloadOf(o) + PayloadOf(p) + PayloadOf(q)
  {
    assert ReadFirst(r, [o, p, q], 1) == Read(r, o);
    assert ReadFirst(r, [o, p, q], 2) == Read(Read(r, o), p);
    assert PayloadsFirst([o, p, q], 1) == PayloadOf(o);
    assert PayloadsFirst([o, p, q], 2) == PayloadOf(o) + PayloadOf(p);
  }

  /** The consumer follows the translator, and the output tells what the input has to tell. */
  ghost predicate IsRead(s: State, step: (State, seq<Output>), content: seq<Payload>) {
    ReadAll(ReaderOf(s), step.1) == ReaderOf(step.0) && Payloads(step.1) == content
  }

  /** Events that come between messages close whatever is open first. */
  lemma ClosingIsRead(s: State, o: Output)
    requires Coherent(s)
    requires o.StepStarted? || o.StepFinished? || o.RunFinished? || (o.ToolCallStart? && o.parent == None)
    ensures CloseBoth(s).0 == INITIAL
    ensures IsRead(s, Closing(s, o), PayloadOf(o))
  {
    var out := CloseBoth(s).1;
    if s.textOpen {
      assert out + [o] == [TextEnd(s.currentId.value), o];
      Two(ReaderOf(s), TextEnd(s.currentId.value), o);
    } else if s.thinkingOpen {
      assert out + [o] == [ThinkingEnd, o];
      Two(ReaderOf(s), ThinkingEnd, o);
    } else {
      assert out + [o] == [o];
      One(ReaderOf(s), o);
    }
  }

  lemma StreamDeltaIsRead(visibility: Visibility, s: State, text: string, newId: Id)
    requires Coherent(s)
    ensures IsRead(s, Handle(visibility, s, StreamDelta(text, newId)), [Said(text)])
  {
    var out := Handle(visibility, s, StreamDelta(text, newId)).1;
    var r := ReaderOf(s);
    if s.textOpen {
      assert out == [TextContent(s.currentId.value, text)];
      One(r, TextContent(s.currentId.value, text));
    } else if s.thinkingOpen {
      assert out == [ThinkingEnd, TextStart(newId), TextContent(newId, text)];
      Three(r, ThinkingEnd, TextStart(newId), TextContent(newId, text));
    } else {
      assert out == [TextStart(newId), TextContent(newId, text)];
      Two(r, TextStart(newId), TextContent(newId, text));
    }
  }

  lemma ThinkingOn(visibility: Visibility, s: State, text: string, fromOverseer: bool)
    requires Coherent(s) && Shown(visibility, fromOverseer) && s.thinkingOpen
    ensures IsRead(s, Handle(visibility, s, Thinking(text, fromOverseer)), [Thought(text)])
  {
    var out := Handle(visibility, s, Thinking(text, fromOverseer)).1;
    assert out == [ThinkingContent(text)];
    One(ReaderOf(s), ThinkingContent(text));
  }

  lemma ThinkingAfterText(visibility: Visibility, s: State, text: string, fromOverseer: bool)
    requires Coherent(s) && Shown(visibility, fromOverseer) && s.textOpen
    ensures IsRead(s, Handle(visibility, s, Thinking(text, fromOverseer)), [Thought(text)])
  {
    var out := Handle(visibility, s, Thinking(text, fromOverseer)).1;
    assert out == [TextEnd(s.currentId.value), ThinkingStart, ThinkingContent(text)];
    Three(ReaderOf(s), TextEnd(s.currentId.value), ThinkingStart, ThinkingContent(text));
  }

  lemma ThinkingFirst(visibility: Visibility, s: State, text: string, fromOverseer: bool)
    requires Coherent(s) && Shown(visibility, fromOverseer) && !s.textOpen && !s.thinkingOpen
    ensures IsRead(s, Handle(visibility, s, Thinking(text, fromOverseer)), [Thought(text)])
  {
    var out := Handle(visibility, s, Thinking(text, fromOverseer)).1;
    assert out == [ThinkingStart, ThinkingContent(text)];
    Two(ReaderOf(s), ThinkingStart, ThinkingContent(text));
  }

  lemma ThinkingIsRead(visibility: Visibility, s: State, text: string, fromOverseer: bool)
    requires Coherent(s) && Shown(visibility, fromOverseer)
    ensures IsRead(s, Handle(visibility, s, Thinking(text, fromOverseer)), [Thought(text)])
  {
    if s.thinkingOpen {
      ThinkingOn(visibility, s, text, fromOverseer);
    } else if s.textOpen {
      ThinkingAfterText(visibility, s, text, fromOverseer);
    } else {
      ThinkingFirst(visibility, s, text, fromOverseer);
    }
  }

  /** Events that leave an open message open. */
  lemma PassingIsRead(s: State, o: Output)
    requires Coherent(s) && (o.RunStarted? || o.RunError? || o.Custom?)
    ensures IsRead(s, (s, [o]), PayloadOf(o))
  {
    One(ReaderOf(s), o);
  }

  lemma ToolUseIsRead(s: State, call: Id, output: string, newId: Id)
    requires Coherent(s)
    ensures IsRead(s, (s, [ToolCallEnd(call), ToolCallResult(newId, call, output)]),
      [CallEnded(call), Returned(newId, call, output)])
  {
    Two(ReaderOf(s), ToolCallEnd(call), ToolCallResult(newId, call, output));
  }

  predicate ClosesMessages(e: Input) {
    e.StepStart? || e.StepFinish? || e.ToolExecuting? || e.RunResult?
  }

  lemma StepStartIsRead(visibility: Visibility, s: State, e: Input)
    requires Coherent(s) && e.StepStart?
    ensures IsRead(s, Handle(visibility, s, e), Content(visibility, e))
  {
    ClosingIsRead(s, StepStarted(e.session));
  }

  lemma StepFinishIsRead(visibility: Visibility, s: State, e: Input)
    requires Coherent(s) && e.StepFinish?
    ensures IsRead(s, Handle(visibility, s, e), Content(visibility, e))
  {
    ClosingIsRead(s, StepFinished(e.reason));
  }

  lemma ToolExecutingIsRead(visibility: Visibility, s: State, e: Input)
    requires Coherent(s) && e.ToolExecuting?
    ensures IsRead(s, Handle(visibility, s, e), Content(visibility, e))
  {
    ClosingIsRead(s, ToolCallStart(e.call, e.tool, None));
  }

  lemma ResultIsRead(visibility: Visibility, s: State, e: Input)
    requires Coherent(s) && e.RunResult?
    ensures IsRead(s, Handle(visibility, s, e), Content(visibility, e))
  {
    ClosingIsRead(s, RunFinished);
  }

  lemma PassingInputIsRead(visibility: Visibility, s: State, e: Input)
    requires Coherent(s) && (e.Error? || e.OverseerRunStarted? || e.OverseerNotice?)
    ensures IsRead(s, Handle(visibility, s, e), Content(visibility, e))
  {
    PassingIsRead(s, if e.Error? then RunError(e.message) else if e.OverseerRunStarted? then RunStarted else Custom(e.name));
  }

  lemma HandleIsRead(visibility: Visibility, s: State, e: Input)
    requires Coherent(s)
    ensures IsRead(s, Handle(visibility, s, e), Content(visibility, e))
  {
    if e.StepStart? {
      StepStartIsRead(visibility, s, e);
    } else if e.StepFinish? {
      StepFinishIsRead(visibility, s, e);
    } else if e.ToolExecuting? {
      ToolExecutingIsRead(visibility, s, e);
    } else if e.RunResult? {
      ResultIsRead(visibility, s, e);
    } else if e.StreamDelta? {
      StreamDeltaIsRead(visibility, s, e.text, e.newId);
    } else if e.ToolUse? {
      ToolUseIsRead(s, e.call, e.output, e.newId);
    } else if e.Thinking? {
      if Shown(visibility, e.fromOverseer) { ThinkingIsRead(visibility, s, e.text, e.fromOverseer); }
    } else if !e.Skipped? {
      PassingInputIsRead(visibility, s, e);
    }
  }

  /**
   For every input sequence the strict consumer is never broken: contents lie in the open message
   of their kind and id, text and thinking never overlap, no message is empty or closed without
   need, and steps, tool calls and the end of the run come only between messages.
   */
  lemma {:induction false} OutputIsFramed(visibility: Visibility, inputs: seq<Input>)
    ensures Coherent(Run(visibility, inputs).0)
    ensures ReadAll(Idle, Run(visibility, inputs).1) == ReaderOf(Run(visibility, inputs).0) != Broken
  {
    if inputs != [] {
      var before, e := inputs[..|inputs| - 1], inputs[|inputs| - 1];
      OutputIsFramed(visibility, before);
      var (s, outputs) := Run(visibility, before);
      HandleKeepsCoherent(visibility, s, e);
      HandleIsRead(visibility, s, e);
      ReadConcat(Idle, outputs, Handle(visibility, s, e).1);
    }
  }

  // ---- nothing is lost ------------------------------------------------------------------

  /** An event without its framing: what it tells apart from where messages begin and end. */
  datatype Payload =
    | Said(text: string) | Thought(text: string) | Began(step: string) | Ended(step: string)
    | Called(call: Id, tool: string) | CallEnded(call: Id) | Returned(id: Id, call: Id, content: string)
    | Started | Finished | Failed(message: string) | Notice(name: string)

  function PayloadOf(o: Output): seq<Payload> {
    match o
    case TextContent(_, delta) => [Said(delta)]
    case ThinkingContent(delta) => [Thought(delta)]
    case StepStarted(name) => [Began(name)]
    case StepFinished(name) => [Ended(name)]
    case ToolCallStart(call, tool, _) => [Called(call, tool)]
    case ToolCallEnd(call) => [CallEnded(call)]
    case ToolCallResult(id, call, content) => [Returned(id, call, content)]
    case RunStarted => [Started]
    case RunFinished => [Finished]
    case RunError(message) => [Failed(message)]
    case Custom(name) => [Notice(name)]
    case _ => []
  }

  function PayloadsFirst(outputs: seq<Output>, n: nat): seq<Payload>
    requires n <= |outputs|
  {
    if n == 0 then [] else PayloadsFirst(outputs, n - 1) + PayloadOf(outputs[n - 1])
  }

  function Payloads(outputs: seq<Output>): seq<Payload> {
    PayloadsFirst(outputs, |outputs|)
  }

  /** What one input has to tell, which does not depend on the state of the translator. */
  function Content(visibility: Visibility, e: Input): seq<Payload> {
    match e
    case StreamDelta(text, _) => [Said(text)]
    case StepStart(session) => [Began(session)]
    case StepFinish(reason) => [Ended(reason)]
    case ToolExecuting(call, tool) => [Called(call, tool)]
    case ToolUse(call, output, newId) => [CallEnded(call), Returned(newId, call, output)]
    case RunResult => [Finished]
    case Error(message) => [Failed(message)]
    case Thinking(text, fromOverseer) =>
      (match visibility
       case Silent => []
       case OverseerOnly => if fromOverseer then [Thought(text)] else []
       case Agents => [Thought(text)])
    case OverseerRunStarted => [Started]
    case OverseerNotice(name) => [Notice(name)]
    case Skipped => []
  }

  /** A message is opened by a delta only, under the new id that came with it. */
  lemma OpensUnderNewId(visibility: Visibility, s: State, e: Input, id: Id)
    requires Coherent(s)
    ensures TextStart(id) in Handle(visibility, s, e).1 <==> e.StreamDelta? && e.newId == id && !s.textOpen
  {
  }

  function Contents(visibility: Visibility, inputs: seq<Input>): seq<Payload> {
    if inputs == [] then []
    else Contents(visibility, inputs[..|inputs| - 1]) + Content(visibility, inputs[|inputs| - 1])
  }

  lemma {:induction false} PayloadsFirstOfConcat(a: seq<Output>, b: seq<Output>, n: nat)
    requires n <= |a|
    ensures PayloadsFirst(a + b, n) == PayloadsFirst(a, n)
  {
    if n > 0 { PayloadsFirstOfConcat(a, b, n - 1); }
  }

  lemma {:induction false} PayloadsRestOfConcat(a: seq<Output>, b: seq<Output>, n: nat)
    requires n <= |b|
    ensures PayloadsFirst(a + b, |a| + n) == Payloads(a) + PayloadsFirst(b, n)
  {
    if n == 0 {
      PayloadsFirstOfConcat(a, b, |a|);
    } else {
      PayloadsRestOfConcat(a, b, n - 1);
      Assoc(Payloads(a), PayloadsFirst(b, n - 1), PayloadOf(b[n - 1]));
    }
  }

  lemma PayloadsConcat(a: seq<Output>, b: seq<Output>)
    ensures Payloads(a + b) == Payloads(a) + Payloads(b)
  {
    PayloadsRestOfConcat(a, b, |b|);
  }

  /** Without its framing the output is exactly what the inputs have to tell, in order. */
  lemma {:induction false} NothingLostOrAdded(visibility: Visibility, inputs: seq<Input>)
    ensures Payloads(Run(visibility, inputs).1) == Contents(visibility, inputs)
  {
    if inputs != [] {
      var before, e := inputs[..|inputs| - 1], inputs[|inputs| - 1];
      NothingLostOrAdded(visibility, before);
      OutputIsFramed(visibility, before);
      var (s, outputs) := Run(visibility, before);
      HandleIsRead(visibility, s, e);
      PayloadsConcat(outputs, Handle(visibility, s, e).1);
    }
  }
}
