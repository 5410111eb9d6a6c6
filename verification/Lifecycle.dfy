// The life of a connection: the finite state machine of its handler, and the driver that calls
// it for every completion, timeout and signal (src/wolframeHandler.cpp:186-207, 277-434;
// src/connectionBase.hpp:125-345).
module Lifecycle {
  datatype FSMstate = NewConnection | SendHello | CommandHandler | TimeoutOccured | Signalled
                    | Forbidden | Terminating | Finished

  datatype NetworkSignal = Timeout | Terminate | EndOfFile | OperationCancelled | BrokenPipe
                         | ConnectionReset | UnknownError

  // What the protocol handler answers when it is asked for its next operation
  datatype Answer = Read | Write(data: string) | Close

  datatype NetworkOperation =
    | READ(timeout: nat)
    | HELLO(text: string)     // these three are the operation WRITE
    | DATA(data: string)
    | BYE(text: string)
    | CLOSE
    | NOOP

  predicate IsWrite(op: NetworkOperation) {
    op.HELLO? || op.DATA? || op.BYE?
  }

  // --------------------------------------------------------------------- the state machine

  function StateAfterNext(s: FSMstate, a: Answer): FSMstate {
    match s
    case NewConnection => SendHello
    case SendHello => CommandHandler
    case CommandHandler => if a == Close then Finished else CommandHandler
    case TimeoutOccured => Terminating
    case Signalled => Terminating
    case Forbidden => Terminating
    case Terminating => Finished
    case Finished => Finished
  }

  predicate StartsWith(text: string, start: string) {
    |start| <= |text| && text[..|start|] == start
  }

  predicate EndsWith(text: string, end: string) {
    |end| <= |text| && text[|text| - |end|..] == end
  }

  // The operation, with what is known of its text
  predicate Issues(s: FSMstate, a: Answer, op: NetworkOperation) {
    match s
    case NewConnection => op.HELLO? && EndsWith(op.text, "OK\n")
    case SendHello => op == READ(30)
    case CommandHandler => if a == Read then op == READ(0) else if a == Close then op.CLOSE? else op == DATA(a.data)
    case TimeoutOccured => op.BYE? && EndsWith(op.text, "BYE Timeout. :P\n")
    case Signalled => op.BYE? && EndsWith(op.text, "BYE Server is shutting down. :P\n")
    case Forbidden => op == BYE("BYE Access denied.\n")
    case Terminating => op.CLOSE?
    case Finished => op.NOOP?
  }

  function StateAfterSignal(s: FSMstate, sig: NetworkSignal): FSMstate {
    if s == Terminating || s == Finished then s
    else if sig == Terminate then Signalled
    else if sig == Timeout then TimeoutOccured
    else Terminating
  }

  // --------------------------------------------------------------------- runs

  // What happens to a handler.  A call of nextOperation comes with the answer the protocol
  // handler would give and with the operation that is returned.
  datatype Event = Next(answer: Answer, op: NetworkOperation) | Signal(sig: NetworkSignal) | Input(bytes: string)

  predicate Possible(s: FSMstate, e: Event) {
    e.Next? ==> Issues(s, e.answer, e.op)
  }

  function StateAfter(s: FSMstate, e: Event): FSMstate {
    match e
    case Next(a, _) => StateAfterNext(s, a)
    case Signal(sig) => StateAfterSignal(s, sig)
    case Input(_) => s
  }

  predicate Run(s: FSMstate, es: seq<Event>)
    decreases |es|
  {
    es == [] || (Run(s, es[..|es| - 1]) && Possible(Final(s, es[..|es| - 1]), es[|es| - 1]))
  }

  function Final(s: FSMstate, es: seq<Event>): FSMstate
    decreases |es|
  {
    if es == [] then s else StateAfter(Final(s, es[..|es| - 1]), es[|es| - 1])
  }

  // A run goes on with any event that is possible.
  lemma RunSnoc(s: FSMstate, es: seq<Event>, e: Event)
    requires Run(s, es) && Possible(Final(s, es), e)
    ensures Run(s, es + [e]) && Final(s, es + [e]) == StateAfter(Final(s, es), e)
    ensures ProtocolCalls(s, es + [e]) ==
              ProtocolCalls(s, es) + if !e.Signal? && Final(s, es) == CommandHandler then 1 else 0
  {
    assert (es + [e])[..|es|] == es;
  }

  // The operations a run issues
  function Trace(es: seq<Event>): seq<NetworkOperation> {
    if es == [] then []
    else Trace(es[..|es| - 1]) + if es[|es| - 1].Next? then [es[|es| - 1].op] else []
  }

  // How often the protocol handler is called, for an operation or with input
  function ProtocolCalls(s: FSMstate, es: seq<Event>): nat
    decreases |es|
  {
    if es == [] then 0
    else
      ProtocolCalls(s, es[..|es| - 1]) +
      if !es[|es| - 1].Signal? && Final(s, es[..|es| - 1]) == CommandHandler then 1 else 0
  }

  function Byes(ops: seq<NetworkOperation>): nat {
    if ops == [] then 0 else Byes(ops[..|ops| - 1]) + if ops[|ops| - 1].BYE? then 1 else 0
  }

  function Closes(ops: seq<NetworkOperation>): nat {
    if ops == [] then 0 else Closes(ops[..|ops| - 1]) + if ops[|ops| - 1] == CLOSE then 1 else 0
  }

  // Nothing but NOOP comes behind a CLOSE.
  predicate QuietAfterClose(ops: seq<NetworkOperation>) {
    forall i, j :: 0 <= i < j < |ops| && ops[i] == CLOSE ==> ops[j] == NOOP
  }

  // A connection starts as a new one, or as a forbidden one if setPeer has denied it.
  predicate Starts(s: FSMstate) {
    s == NewConnection || s == Forbidden
  }

  lemma Snoc(ops: seq<NetworkOperation>, op: NetworkOperation)
    ensures Byes(ops + [op]) == Byes(ops) + if op.BYE? then 1 else 0
    ensures Closes(ops + [op]) == Closes(ops) + if op == CLOSE then 1 else 0
  {
    assert (ops + [op])[..|ops|] == ops;
  }

  // The operations issued up to a state: the state tells which have been.
  predicate Issued(ops: seq<NetworkOperation>, s: FSMstate) {
    && Closes(ops) == (if s == Finished then 1 else 0)
    && Byes(ops) <= (if s == Terminating || s == Finished then 1 else 0)
    && QuietAfterClose(ops)
    && (CLOSE in ops <==> s == Finished)
  }

  lemma IssuedNext(ops: seq<NetworkOperation>, s: FSMstate, a: Answer, op: NetworkOperation)
    requires Issued(ops, s) && Issues(s, a, op)
    ensures Issued(ops + [op], StateAfterNext(s, a))
  {
    hide Byes, Closes, QuietAfterClose;
    Snoc(ops, op);
    QuietSnoc(ops, op);
  }

  lemma QuietSnoc(ops: seq<NetworkOperation>, op: NetworkOperation)
    requires QuietAfterClose(ops) && (CLOSE in ops ==> op == NOOP)
    ensures QuietAfterClose(ops + [op]) && (CLOSE in ops + [op] <==> CLOSE in ops || op == CLOSE)
  {
  }

  // In every run there is at most one BYE and at most one CLOSE, and no READ and no WRITE comes
  // behind the CLOSE.
  lemma {:induction false} EveryRun(s: FSMstate, es: seq<Event>)
    requires Starts(s) && Run(s, es)
    ensures Issued(Trace(es), Final(s, es))
    ensures Byes(Trace(es)) <= 1 && Closes(Trace(es)) <= 1 && QuietAfterClose(Trace(es))
    decreases |es|
  {
    if es != [] {
      var front, last := es[..|es| - 1], es[|es| - 1];
      EveryRun(s, front);
      assert Trace(es) == if last.Next? then Trace(front) + [last.op] else Trace(front);
      if last.Next? {
        IssuedNext(Trace(front), Final(s, front), last.answer, last.op);
      }
      hide Trace, Byes, Closes, QuietAfterClose;
    }
  }

  // A denied connection never reaches the protocol handler.
  lemma {:induction false} ForbiddenIsKeptOut(es: seq<Event>)
    requires Run(Forbidden, es)
    ensures ProtocolCalls(Forbidden, es) == 0
    ensures Final(Forbidden, es) in {Forbidden, TimeoutOccured, Signalled, Terminating, Finished}
    decreases |es|
  {
    if es != [] {
      ForbiddenIsKeptOut(es[..|es| - 1]);
    }
  }

  function Nexts(es: seq<Event>): nat {
    if es == [] then 0 else Nexts(es[..|es| - 1]) + if es[|es| - 1].Next? then 1 else 0
  }

  // How many calls of nextOperation are needed for a connection that is to be closed
  function Remaining(s: FSMstate): nat {
    match s
    case TimeoutOccured => 2
    case Signalled => 2
    case Forbidden => 2
    case Terminating => 1
    case _ => 0
  }

  // How often a run has issued CLOSE
  function Closings(es: seq<Event>): nat {
    Closes(Trace(es))
  }

  lemma ClosingsSnoc(es: seq<Event>, e: Event)
    ensures Closings(es + [e]) == Closings(es) + if e.Next? && e.op == CLOSE then 1 else 0
  {
    assert (es + [e])[..|es|] == es;
    assert Trace(es + [e]) == if e.Next? then Trace(es) + [e.op] else Trace(es);
    if e.Next? {
      Snoc(Trace(es), e.op);
    }
    hide Closes, Trace;
  }

  predicate Ending(s: FSMstate) {
    s in {TimeoutOccured, Signalled, Forbidden, Terminating, Finished}
  }

  lemma {:induction false} EndingGoesOn(s: FSMstate, es: seq<Event>)
    requires Ending(s) && s != Finished && Run(s, es)
    ensures Ending(Final(s, es))
    ensures Final(s, es) != Finished ==> Remaining(Final(s, es)) + Nexts(es) <= Remaining(s)
    ensures Final(s, es) == Finished ==> CLOSE in Trace(es)
    decreases |es|
  {
    if es != [] {
      var front, last := es[..|es| - 1], es[|es| - 1];
      EndingGoesOn(s, front);
    }
  }

  // After any signal to a connection that is not at its end, CLOSE is issued by the second call
  // of nextOperation, whatever else happens.
  lemma SignalCloses(s: FSMstate, sig: NetworkSignal, es: seq<Event>)
    requires s != Finished && Run(StateAfterSignal(s, sig), es) && Nexts(es) >= 2
    ensures CLOSE in Trace(es)
  {
    EndingGoesOn(StateAfterSignal(s, sig), es);
  }

  // --------------------------------------------------------------------- sessions

  // The calls of nextOperation in a run
  function Calls(es: seq<Event>): seq<Event> {
    if es == [] then []
    else Calls(es[..|es| - 1]) + if es[|es| - 1].Next? then [es[|es| - 1]] else []
  }

  predicate Unsignalled(es: seq<Event>) {
    forall e :: e in es ==> !e.Signal?
  }

  // The operation that the protocol handler has answered with
  predicate Serves(e: Event) {
    e.Next? &&
    match e.answer
    case Read => e.op.READ? && e.op.timeout == 0
    case Write(data) => e.op == DATA(data)
    case Close => e.op == CLOSE
  }

  // The protocol handler is in charge: hello has been said, the first read has been begun, and
  // no answer since then has been to close.
  predicate InSession(calls: seq<Event>) {
    |calls| >= 2 && forall i :: 2 <= i < |calls| && calls[i].Next? ==> calls[i].answer != Close
  }

  // The events at which the protocol handler is in charge
  function Turns(es: seq<Event>): nat {
    if es == [] then 0
    else Turns(es[..|es| - 1]) + if InSession(Calls(es[..|es| - 1])) then 1 else 0
  }

  // The calls of a session that nothing interrupts
  predicate Session(calls: seq<Event>) {
    && (|calls| > 0 ==> calls[0].Next? && calls[0].op.HELLO? && EndsWith(calls[0].op.text, "OK\n"))
    && (|calls| > 1 ==> calls[1].Next? && calls[1].op == READ(30))
    && (forall i :: 2 <= i < |calls| && InSession(calls[..i]) ==> Serves(calls[i]))
    && (forall i :: 2 <= i < |calls| && !InSession(calls[..i]) ==> calls[i].Next? && calls[i].op == NOOP)
  }

  lemma SessionSnoc(calls: seq<Event>, e: Event)
    requires Session(calls) && e.Next?
    requires |calls| == 0 ==> e.op.HELLO? && EndsWith(e.op.text, "OK\n")
    requires |calls| == 1 ==> e.op == READ(30)
    requires |calls| >= 2 ==> if InSession(calls) then Serves(e) else e.op == NOOP
    ensures Session(calls + [e])
    ensures InSession(calls + [e]) <==> |calls| == 1 || (InSession(calls) && e.answer != Close)
  {
    var all := calls + [e];
    assert all[..|calls|] == calls;
    forall i | 2 <= i < |calls| ensures all[..i] == calls[..i] && all[i] == calls[i] {
    }
    hide EndsWith;
  }

  // Without a signal a new connection says hello, begins a read with a timeout, and from then on
  // does what the protocol handler answers, up to the first CLOSE; the protocol handler is
  // called exactly in between.
  lemma UndisturbedSession(es: seq<Event>)
    requires Run(NewConnection, es) && Unsignalled(es)
    ensures Session(Calls(es))
    ensures ProtocolCalls(NewConnection, es) == Turns(es)
  {
    SessionState(es);
  }

  // The state tells how far the session is.
  predicate Reached(s: FSMstate, calls: seq<Event>) {
    if |calls| == 0 then s == NewConnection
    else if |calls| == 1 then s == SendHello
    else s == if InSession(calls) then CommandHandler else Finished
  }

  lemma SessionStep(s: FSMstate, calls: seq<Event>, e: Event)
    requires Session(calls) && Reached(s, calls) && Possible(s, e) && e.Next?
    ensures Session(calls + [e]) && Reached(StateAfter(s, e), calls + [e])
  {
    hide Session, EndsWith, InSession;
    SessionSnoc(calls, e);
  }

  lemma RunBack(s: FSMstate, es: seq<Event>)
    requires Run(s, es) && es != []
    ensures
      var front, last := es[..|es| - 1], es[|es| - 1];
      && Run(s, front) && Possible(Final(s, front), last) && Final(s, es) == StateAfter(Final(s, front), last)
      && Calls(es) == (if last.Next? then Calls(front) + [last] else Calls(front))
      && Turns(es) == Turns(front) + (if InSession(Calls(front)) then 1 else 0)
      && ProtocolCalls(s, es) ==
           ProtocolCalls(s, front) + (if !last.Signal? && Final(s, front) == CommandHandler then 1 else 0)
      && (Unsignalled(es) ==> Unsignalled(front) && !last.Signal?)
  {
    assert es[|es| - 1] in es && forall e :: e in es[..|es| - 1] ==> e in es;
    hide Possible, InSession;
  }

  lemma {:induction false} SessionState(es: seq<Event>)
    requires Run(NewConnection, es) && Unsignalled(es)
    ensures Session(Calls(es)) && Reached(Final(NewConnection, es), Calls(es))
    ensures ProtocolCalls(NewConnection, es) == Turns(es)
    decreases |es|
  {
    if es != [] {
      hide Session, Run, Possible, EndsWith, InSession, Unsignalled, Calls, Turns, ProtocolCalls, Final, StateAfterNext;
      var front, last := es[..|es| - 1], es[|es| - 1];
      RunBack(NewConnection, es);
      SessionState(front);
      if last.Next? {
        SessionStep(Final(NewConnection, front), Calls(front), last);
      }
      FewCalls(Calls(front));
    }
  }

  lemma FewCalls(calls: seq<Event>)
    ensures |calls| < 2 ==> !InSession(calls)
  {
  }

  // --- what a signal is followed by

  predicate Waiting(es: seq<Event>) {
    forall e :: e in es ==> !e.Next?
  }

  // The signal that decides: the first error, which ends the connection, or the last of the others
  function Deciding(es: seq<Event>): (sig: NetworkSignal)
    requires exists e :: e in es && e.Signal?
    decreases |es|
  {
    var front, last := es[..|es| - 1], es[|es| - 1];
    if !last.Signal? then
      assert forall e :: e in es ==> e in front || e == last;
      Deciding(front)
    else if (exists e :: e in front && e.Signal?) && IsError(Deciding(front)) then Deciding(front)
    else last.sig
  }

  predicate IsError(sig: NetworkSignal) {
    sig != Terminate && sig != Timeout
  }

  // Errors close the connection without a word; otherwise the last signal tells the farewell.
  predicate Farewell(sig: NetworkSignal, op: NetworkOperation) {
    match sig
    case Timeout => op.BYE? && EndsWith(op.text, "BYE Timeout. :P\n")
    case Terminate => op.BYE? && EndsWith(op.text, "BYE Server is shutting down. :P\n")
    case _ => op == CLOSE
  }

  lemma {:induction false} SignalsDecide(s: FSMstate, es: seq<Event>)
    requires s != Terminating && s != Finished && Waiting(es)
    ensures (forall e :: e in es ==> !e.Signal?) ==> Final(s, es) == s
    ensures (exists e :: e in es && e.Signal?) ==>
      Final(s, es) == if IsError(Deciding(es)) then Terminating
                      else if Deciding(es) == Timeout then TimeoutOccured else Signalled
    decreases |es|
  {
    if es != [] {
      var front, last := es[..|es| - 1], es[|es| - 1];
      assert last in es && (forall e :: e in front ==> e in es) && (forall e :: e in es ==> e in front || e == last);
      SignalsDecide(s, front);
    }
  }

  // The next operation behind signals, in any state that is not at its end
  lemma FarewellFollows(s: FSMstate, es: seq<Event>, e: Event)
    requires s != Terminating && s != Finished && Waiting(es) && (exists x :: x in es && x.Signal?)
    requires e.Next? && Run(s, es + [e])
    ensures Farewell(Deciding(es), e.op)
  {
    assert (es + [e])[..|es|] == es;
    SignalsDecide(s, es);
    hide Deciding, Run, EndsWith;
  }

  // A denied connection says so and closes.
  lemma DeniedSession(es: seq<Event>)
    requires Run(Forbidden, es) && Unsignalled(es)
    ensures |Calls(es)| > 0 ==> Calls(es)[0].Next? && Calls(es)[0].op == BYE("BYE Access denied.\n")
    ensures |Calls(es)| > 1 ==> Calls(es)[1].Next? && Calls(es)[1].op == CLOSE
  {
    DeniedState(es);
  }

  lemma {:induction false} DeniedState(es: seq<Event>)
    requires Run(Forbidden, es) && Unsignalled(es)
    ensures |Calls(es)| == 0 ==> Final(Forbidden, es) == Forbidden
    ensures |Calls(es)| == 1 ==> Final(Forbidden, es) == Terminating
    ensures |Calls(es)| > 0 ==> Calls(es)[0].Next? && Calls(es)[0].op == BYE("BYE Access denied.\n")
    ensures |Calls(es)| > 1 ==> Calls(es)[1].Next? && Calls(es)[1].op == CLOSE
    decreases |es|
  {
    if es != [] {
      var front, last := es[..|es| - 1], es[|es| - 1];
      assert last in es && forall e :: e in front ==> e in es;
      DeniedState(front);
    }
  }

  // --------------------------------------------------------------------- the handler

  // What the protocol handler has been called for: its answers depend on this.
  datatype ProtocolCall = AskedNext | GotInput(bytes: string)

  class WolframeConnection {
    const banner: string
    const answers: seq<ProtocolCall> -> Answer
    const interruptMarker: seq<ProtocolCall> -> string

    var state: FSMstate
    var outMsg: string
    var endDataSessionMarker: string
    var dataSize: nat
    var calls: seq<ProtocolCall>

    ghost var first: FSMstate       // the state after setPeer
    ghost var events: seq<Event>    // all that has happened since

    ghost predicate Valid()
      reads this
    {
      && Starts(first) && Run(first, events) && state == Final(first, events)
      && |calls| == ProtocolCalls(first, events)
    }

    constructor (banner: string, answers: seq<ProtocolCall> -> Answer, interruptMarker: seq<ProtocolCall> -> string)
      ensures Valid() && events == [] && state == NewConnection
    {
      this.banner, this.answers, this.interruptMarker := banner, answers, interruptMarker;
      state, outMsg, endDataSessionMarker, dataSize, calls := NewConnection, "", "", 0, [];
      first, events := NewConnection, [];
    }

    // The part of setPeer that asks for the authorization, where there is an authorizer
    method SetPeer(hasAuthorizer: bool, allowed: bool, connectAuthorized: bool)
      requires Valid() && events == []
      modifies `state, `first
      ensures Valid() && events == []
      ensures hasAuthorizer && !(allowed && connectAuthorized) ==> first == Forbidden
      ensures !(hasAuthorizer && !(allowed && connectAuthorized)) ==> state == old(state)
    {
      if hasAuthorizer {
        if allowed {
          if !connectAuthorized {
            state := Forbidden;
          }
        } else {
          state := Forbidden;
        }
      }
      first := state;
    }

    // The message of each state that sends one
    function Message(): string
      reads this
    {
      match state
      case NewConnection => if banner != "" then banner + "\nOK\n" else "OK\n"
      case TimeoutOccured => endDataSessionMarker + "BYE Timeout. :P\n"
      case Signalled => endDataSessionMarker + "BYE Server is shutting down. :P\n"
      case Forbidden => "BYE Access denied.\n"
      case _ => ""
    }

    lemma MessageIs()
      ensures state == NewConnection ==> StartsWith(Message(), banner) && EndsWith(Message(), "OK\n")
      ensures state == TimeoutOccured || state == Signalled ==> StartsWith(Message(), endDataSessionMarker)
      ensures state == TimeoutOccured ==> EndsWith(Message(), "BYE Timeout. :P\n")
      ensures state == Signalled ==> EndsWith(Message(), "BYE Server is shutting down. :P\n")
    {
    }

    method NextOperation() returns (op: NetworkOperation)
      requires Valid()
      modifies `state, `outMsg, `calls, `events
      ensures Valid()
      ensures events == old(events) + [Next(old(answers(calls)), op)]
      ensures op.HELLO? || op.BYE? ==> op.text == old(Message())
      ensures op.HELLO? ==> StartsWith(op.text, banner)
      ensures op.BYE? && old(state) != Forbidden ==> StartsWith(op.text, old(endDataSessionMarker))
      ensures state != Finished ==> op.READ? || IsWrite(op)
      ensures calls == old(calls) + if old(state) == CommandHandler then [AskedNext] else []
    {
      MessageIs();
      hide Run, Final, ProtocolCalls, Trace, EndsWith, StartsWith;
      ghost var answer := answers(calls);
      match state {
        case NewConnection =>
          op := HELLO(Message());
          outMsg := Message();
          state := SendHello;
        case SendHello =>
          state := CommandHandler;
          op := READ(30);
        case TimeoutOccured =>
          op := BYE(endDataSessionMarker + "BYE Timeout. :P\n");
          state := Terminating;
        case Signalled =>
          op := BYE(endDataSessionMarker + "BYE Server is shutting down. :P\n");
          state := Terminating;
        case Forbidden =>
          op := BYE("BYE Access denied.\n");
          state := Terminating;
        case Terminating =>
          state := Finished;
          op := CLOSE;
        case Finished =>
          op := NOOP;
        case CommandHandler =>
          var a := answers(calls);
          calls := calls + [AskedNext];
          match a {
            case Read =>
              op := READ(0);
            case Write(data) =>
              op := DATA(data);
            case Close =>
              state := Finished;
              op := CLOSE;
          }
      }
      RunSnoc(first, events, Next(answer, op));
      events := events + [Next(answer, op)];
    }

    // Input that comes when the protocol handler is not in charge is only counted.
    method NetworkInput(bytes: string)
      requires Valid()
      modifies `dataSize, `calls, `events
      ensures Valid() && events == old(events) + [Input(bytes)]
      ensures calls == old(calls) + if state == CommandHandler then [GotInput(bytes)] else []
    {
      hide Run, Final, ProtocolCalls;
      if state == CommandHandler {
        calls := calls + [GotInput(bytes)];
      } else {
        dataSize := dataSize + |bytes|;
      }
      RunSnoc(first, events, Input(bytes));
      events := events + [Input(bytes)];
    }

    // A session that is interrupted is told so by the marker of its protocol.
    method SignalOccured(sig: NetworkSignal)
      requires Valid()
      modifies `state, `endDataSessionMarker, `events
      ensures Valid() && events == old(events) + [Signal(sig)]
      ensures endDataSessionMarker ==
        if old(state) == CommandHandler && (sig == Terminate || sig == Timeout || sig == UnknownError)
        then interruptMarker(calls) else old(endDataSessionMarker)
    {
      hide Run, Final, ProtocolCalls;
      RunSnoc(first, events, Signal(sig));
      match sig {
        case Terminate =>
          if state == CommandHandler {
            endDataSessionMarker := interruptMarker(calls);
          }
          if state != Terminating && state != Finished {
            state := Signalled;
          }
        case Timeout =>
          if state == CommandHandler {
            endDataSessionMarker := interruptMarker(calls);
          }
          if state != Terminating && state != Finished {
            state := TimeoutOccured;
          }
        case EndOfFile | OperationCancelled | BrokenPipe | ConnectionReset =>
          if state != Terminating && state != Finished {
            state := Terminating;
          }
        case UnknownError =>
          if state == CommandHandler {
            endDataSessionMarker := interruptMarker(calls);
          }
          if state != Terminating && state != Finished {
            state := Terminating;
          }
      }
      events := events + [Signal(sig)];
    }
  }

  // --------------------------------------------------------------------- the driver

  // How a read or write completes
  datatype Completion = Success(bytes: string) | Error(code: ErrorCode)

  datatype ErrorCode = Eof | OperationAborted | BrokenPipeError | ConnectionResetError | OtherError

  // How many completions of each kind are to come
  datatype Pending = Pending(reading: int, writing: int, waiting: int, closing: int)

  // An operation that is started adds its completion, and a read with a timeout a timer.
  function Started(p: Pending, op: NetworkOperation): Pending {
    Pending(p.reading + if op.READ? then 1 else 0,
            p.writing + if IsWrite(op) then 1 else 0,
            p.waiting + if op.READ? && op.timeout > 0 then 1 else 0,
            p.closing + if op == CLOSE then 1 else 0)
  }

  class Connection {
    const handler: WolframeConnection
    var pendingReads: nat            // operations whose completion is outstanding
    var pendingWrites: nat
    var timers: nat           // waits whose completion is outstanding
    var registered: bool
    var shutdowns: nat        // posted calls of handleShutdown
    var open: bool

    function Outstanding(): Pending
      reads this
    {
      Pending(pendingReads, pendingWrites, timers, shutdowns)
    }

    // A CLOSE has posted a shutdown, which is outstanding or has closed the socket, and has
    // unregistered the connection if it still was registered.
    ghost predicate Consistent()
      reads this, handler
    {
      && handler.Valid()
      && shutdowns + (if open then 0 else 1) == Closings(handler.events)
      && (Closings(handler.events) > 0 ==> !registered)
    }

    ghost predicate Valid()
      reads this, handler
    {
      && Consistent()
      && (handler.events == [] ==> pendingReads == pendingWrites == 0)
      && (handler.events != [] && handler.state != Finished ==> pendingReads + pendingWrites > 0)
    }

    // What every interleaving of completions, timeouts and signals keeps
    lemma Safe()
      requires Valid()
      ensures
        var ops := Trace(handler.events);
        && Closes(ops) <= 1 && Byes(ops) <= 1 && QuietAfterClose(ops)
        && (handler.first == Forbidden ==> handler.calls == [])
        && (handler.events != [] && CLOSE !in ops ==> pendingReads + pendingWrites > 0)
      ensures shutdowns <= 1 && (!open ==> shutdowns == 0) && (shutdowns > 0 || !open ==> !registered)
    {
      EveryRun(handler.first, handler.events);
      if handler.first == Forbidden {
        ForbiddenIsKeptOut(handler.events);
      }
    }

    constructor (handler: WolframeConnection)
      requires handler.Valid() && handler.events == []
      ensures Valid() && this.handler == handler && shutdowns == 0 && pendingReads == pendingWrites == timers == 0 && registered && open
    {
      this.handler := handler;
      pendingReads, pendingWrites, timers, registered, shutdowns, open := 0, 0, 0, true, 0, true;
    }

    // A new wait is started unless the timer is only reset.  Cancelled waits complete, too.
    method SetTimeout(timeout: nat)
      modifies `timers
      ensures timers == old(timers) + if timeout == 0 then 0 else 1
    {
      if timeout != 0 {
        timers := timers + 1;
      }
    }

    method StartOperation(op: NetworkOperation)
      modifies `pendingReads, `pendingWrites, `timers, `shutdowns, `registered
      ensures Outstanding() == Started(old(Outstanding()), op)
      ensures registered <==> old(registered) && op != CLOSE
    {
      match op {
        case READ(timeout) =>
          if timeout > 0 {
            SetTimeout(timeout);
          }
          pendingReads := pendingReads + 1;
        case HELLO(_) =>
          pendingWrites := pendingWrites + 1;
        case DATA(_) =>
          pendingWrites := pendingWrites + 1;
        case BYE(_) =>
          pendingWrites := pendingWrites + 1;
        case CLOSE =>
          SetTimeout(0);
          registered := false;
          shutdowns := shutdowns + 1;
        case NOOP =>
      }
    }

    // The next operation is started, with a timer if the read has a timeout; the answer to CLOSE
    // is to unregister and to shut down.
    method NextOperation()
      requires Consistent() && (handler.events == [] ==> pendingReads == pendingWrites == 0)
      modifies this, handler
      ensures Valid() && handler.first == old(handler.first) && open == old(open)
      ensures |handler.events| == |old(handler.events)| + 1
      ensures
        var e := handler.events[|old(handler.events)|];
        && handler.events == old(handler.events) + [e] && e.Next? && e.answer == old(handler.answers(handler.calls))
        && Outstanding() == Started(old(Outstanding()), e.op)
        && (registered <==> old(registered) && e.op != CLOSE)
    {
      hide Run, Final, ProtocolCalls, Closings, WolframeConnection.Valid, WolframeConnection.Message;
      ghost var answer := handler.answers(handler.calls);
      var op := handler.NextOperation();
      assert handler.events[..|handler.events| - 1] == old(handler.events);
      ClosingsSnoc(old(handler.events), Next(answer, op));
      StartOperation(op);
      assert handler.events == old(handler.events) + [Next(answer, op)];
    }

    method SignalError(code: ErrorCode)
      requires Consistent()
      modifies handler
      ensures Consistent() && handler.first == old(handler.first)
      ensures handler.events == old(handler.events) + [Signal(SignalOf(code))]
    {
      hide Closings;
      ClosingsSnoc(handler.events, Signal(SignalOf(code)));
      handler.SignalOccured(SignalOf(code));
    }

    // Errors of the network end the connection; only an unknown one leaves the marker of its
    // protocol behind.
    static function SignalOf(code: ErrorCode): (sig: NetworkSignal)
      ensures IsError(sig) && (sig == UnknownError <==> code == OtherError)
    {
      match code
      case Eof => EndOfFile
      case OperationAborted => OperationCancelled
      case BrokenPipeError => BrokenPipe
      case ConnectionResetError => ConnectionReset
      case OtherError => UnknownError
    }

    // start: the peer is known, and the first operation is begun
    method Start(hasAuthorizer: bool, allowed: bool, connectAuthorized: bool)
      requires Valid() && handler.events == []
      modifies this, handler
      ensures Valid() && handler.events != []
      ensures hasAuthorizer && !(allowed && connectAuthorized) ==> handler.first == Forbidden
    {
      handler.SetPeer(hasAuthorizer, allowed, connectAuthorized);
      NextOperation();
    }

    // Behind the events before, the handler has been told something, and one more operation has
    // been started.
    ghost predicate GoesOn(before: seq<Event>, told: seq<Event>, was: Pending)
      reads this, handler
    {
      var n := |before| + |told|;
      && |handler.events| == n + 1 && handler.events[..n] == before + told && handler.events[n].Next?
      && Outstanding() == Started(was, handler.events[n].op)
    }

    method HandleRead(e: Completion)
      requires Valid() && pendingReads > 0
      modifies this, handler
      ensures Valid() && handler.first == old(handler.first) && open == old(open)
      ensures GoesOn(old(handler.events), [if e.Success? then Input(e.bytes) else Signal(SignalOf(e.code))],
                     old(Outstanding()).(reading := old(pendingReads) - 1))
    {
      hide Closings, WolframeConnection.Valid;
      pendingReads := pendingReads - 1;
      SetTimeout(0);
      if e.Success? {
        ClosingsSnoc(handler.events, Input(e.bytes));
        handler.NetworkInput(e.bytes);
      } else {
        SignalError(e.code);
      }
      NextOperation();
    }

    method HandleWrite(e: Completion)
      requires Valid() && pendingWrites > 0
      modifies this, handler
      ensures Valid() && handler.first == old(handler.first) && open == old(open)
      ensures GoesOn(old(handler.events), if e.Success? then [] else [Signal(SignalOf(e.code))],
                     old(Outstanding()).(writing := old(pendingWrites) - 1))
    {
      hide Closings;
      pendingWrites := pendingWrites - 1;
      SetTimeout(0);
      if !e.Success? {
        SignalError(e.code);
      }
      NextOperation();
    }

    // A wait ends because the time is over, or because it was cancelled.
    method HandleTimeout(cancelled: bool)
      requires Valid() && timers > 0 && handler.events != []
      modifies this, handler
      ensures Valid() && handler.first == old(handler.first) && open == old(open)
      ensures !cancelled ==> GoesOn(old(handler.events), [Signal(Timeout)], old(Outstanding()).(waiting := old(timers) - 1))
      ensures cancelled ==>
        && unchanged(handler) && registered == old(registered)
        && Outstanding() == old(Outstanding()).(waiting := old(timers) - 1)
    {
      hide Closings, WolframeConnection.Valid;
      timers := timers - 1;
      if !cancelled {
        ClosingsSnoc(handler.events, Signal(Timeout));
        handler.SignalOccured(Timeout);
        NextOperation();
      }
    }

    method HandleSignal()
      requires Valid() && handler.events != []
      modifies this, handler
      ensures Valid() && handler.first == old(handler.first) && open == old(open)
      ensures GoesOn(old(handler.events), [Signal(Terminate)], old(Outstanding()))
    {
      hide Closings;
      ClosingsSnoc(handler.events, Signal(Terminate));
      handler.SignalOccured(Terminate);
      NextOperation();
    }

    // The acceptor that stops takes the connection out of its list before it signals.
    method SetUnregistered()
      requires Valid()
      modifies `registered
      ensures Valid() && !registered
    {
      registered := false;
    }

    // The socket is closed by the one shutdown that is ever posted: it still was open, and no
    // shutdown is outstanding behind it.
    method HandleShutdown()
      requires Valid() && shutdowns > 0
      modifies `timers, `shutdowns, `open
      ensures Valid() && old(open) && !open && Outstanding() == old(Outstanding()).(closing := 0)
    {
      Safe();
      shutdowns := shutdowns - 1;
      SetTimeout(0);
      if open {
        open := false;
      }
    }
  }
}
