// The protocol handler that passes content on: it buffers input while the document type is
// detected, replays it to the command handler, and cuts the output of the command handler to
// the space of the caller (src/contentOnlyProtocolHandler.cpp:43-309).
module ContentHandler {
  import opened Wrappers
  import opened CText

  datatype Operation = READ | WRITE | CLOSE

  datatype State = Init | DoctypeDetection | InitProcessing | Processing | FlushingOutput | DiscardInput | Done

  datatype DoctypeInfo = DoctypeInfo(doctype: string, docformat: string)

  // What the command handler answers when it is asked for its next operation
  datatype Answer = Close | Read | Write(block: string) | Throws

  // What the command handler has seen: its answer depends on this.
  datatype Event = Put(bytes: string, eod: bool) | Asked(answer: Answer)

  // Where nextOperation begins
  datatype Moment = Moment(st: State, seen: seq<Detection>, name: string, found: Option<DoctypeInfo>,
                           history: seq<Event>, pending: string, flushed: bool)

  // What the document type detector has seen
  datatype Detection = Fed(bytes: string) | Ran

  // The bytes the command handler has been given
  function Given(h: seq<Event>): string {
    if h == [] then ""
    else Given(h[..|h| - 1]) + if h[|h| - 1].Put? then h[|h| - 1].bytes else ""
  }

  // The output it has produced
  function Produced(h: seq<Event>): string {
    if h == [] then ""
    else
      var e := h[|h| - 1];
      Produced(h[..|h| - 1]) + if e.Asked? && e.answer.Write? then e.answer.block else ""
  }

  lemma Snoc(h: seq<Event>, e: Event)
    ensures Given(h + [e]) == Given(h) + if e.Put? then e.bytes else ""
    ensures Produced(h + [e]) == Produced(h) + if e.Asked? && e.answer.Write? then e.answer.block else ""
  {
    assert (h + [e])[..|h|] == h;
  }

  class Handler {
    // The rest of the system, as far as it answers
    const hasContext: bool
    const hasDetector: bool
    const detects: seq<Detection> -> bool
    const info: seq<Detection> -> Option<DoctypeInfo>
    const hasCommand: (string, string) -> bool
    const answers: seq<Event> -> Answer

    var buffer: string
    var bufferpos: nat
    var cmdname: string
    var output: array<char>
    var outputsize: nat
    var outputpos: nat
    var writeblock: string
    var writesize: nat
    var writepos: nat
    var doctypeInfo: Option<DoctypeInfo>
    var state: State
    var eod: bool

    var detections: seq<Detection>
    var hasHandler: bool
    var history: seq<Event>

    ghost var received: string     // the input of all calls of putInput
    ghost var sent: string         // the chunks of all calls of getOutput
    ghost var closed: bool         // CLOSE has been returned

    ghost predicate Valid()
      reads this
    {
      Inside() && (state == Processing && !closed ==> buffer == "")
    }

    // What holds while nextOperation is at work, too
    ghost predicate Inside()
      reads `buffer, `bufferpos, `output, `outputsize, `outputpos, `writeblock, `writesize, `writepos
      reads `state, `eod, `hasHandler, `history, `received, `sent
    {
      && outputpos <= outputsize <= output.Length
      && writepos <= writesize <= |writeblock|
      && (eod ==> hasHandler)
      && match state
         case Init | InitProcessing =>
           buffer == "" == received && bufferpos == 0 && history == [] && sent == "" && !hasHandler && writesize == 0
         case DoctypeDetection =>
           buffer == received && bufferpos == 0 && history == [] && sent == "" && !hasHandler && writesize == 0
         case Processing =>
           hasHandler && Replaying() && sent == Produced(history) && writepos == 0
         case FlushingOutput =>
           hasHandler && Replaying() && sent + writeblock[writepos..writesize] == Produced(history)
         case DiscardInput | Done =>
           hasHandler && IsPrefix(Given(history), received) && sent == Produced(history)
    }

    // The buffer is still to be replayed, or it has been, or it is empty.
    ghost predicate Replaying()
      reads `buffer, `bufferpos, `history, `received
    {
      && (bufferpos == 0 || bufferpos == |buffer|)
      && Given(history) + (if bufferpos == 0 then buffer else "") == received
    }

    constructor (hasContext: bool, hasDetector: bool, detects: seq<Detection> -> bool,
                 info: seq<Detection> -> Option<DoctypeInfo>, hasCommand: (string, string) -> bool,
                 answers: seq<Event> -> Answer, cmdname: string, output: array<char>)
      ensures Valid() && state == Init && !closed && !eod && received == "" && sent == ""
    {
      this.hasContext, this.hasDetector, this.detects := hasContext, hasDetector, detects;
      this.info, this.hasCommand, this.answers, this.cmdname := info, hasCommand, answers, cmdname;
      buffer, bufferpos, this.output, outputsize, outputpos := "", 0, output, 0, 0;
      writeblock, writesize, writepos, doctypeInfo, state, eod := "", 0, 0, None, Init, false;
      detections, hasHandler, history := [], false, [];
      received, sent, closed := "", "", false;
    }

    method SetOutputBuffer(buf: array<char>, size: nat, pos: nat)
      requires Valid() && pos <= size <= buf.Length
      modifies `output, `outputsize, `outputpos
      ensures Valid() && output == buf && outputsize == size && outputpos == pos
    {
      output, outputsize, outputpos := buf, size, pos;
    }

    // The command handler is asked.
    method Ask() returns (a: Answer)
      modifies `history
      ensures history == old(history) + [Asked(a)] && a == answers(old(history))
      ensures Given(history) == Given(old(history))
      ensures Produced(history) == Produced(old(history)) + if a.Write? then a.block else ""
    {
      a := answers(history);
      Snoc(history, Asked(a));
      history := history + [Asked(a)];
    }

    // The command handler is given input.
    method Give(bytes: string)
      modifies `history
      ensures history == old(history) + [Put(bytes, eod)]
      ensures Given(history) == Given(old(history)) + bytes && Produced(history) == Produced(old(history))
    {
      Snoc(history, Put(bytes, eod));
      history := history + [Put(bytes, eod)];
    }

    // --- what nextOperation answers

    predicate Marked(name: string) {
      name != "" && name[|name| - 1] == '!'
    }

    // A command name that ends with an exclamation mark is taken without the document type.
    function CommandFor(name: string, doctype: string): string {
      if Marked(name) then name[..|name| - 1] else name + doctype
    }

    function Format(found: Option<DoctypeInfo>): string {
      if found == None then "" else found.value.docformat
    }

    // The document type is found, and there is a command handler for it.
    predicate Recognized(seen: seq<Detection>, name: string) {
      && detects(seen) && info(seen + [Ran]).Some?
      && var found := info(seen + [Ran]).value;
      hasCommand(CommandFor(name, found.doctype), found.docformat)
    }

    // From the given state on, the command handler is or will be there.
    predicate Opens(st: State, seen: seq<Detection>, name: string, found: Option<DoctypeInfo>) {
      match st
      case Init =>
        && hasContext
        && if hasDetector then Recognized(seen, name)
           else Marked(name) && hasCommand(name[..|name| - 1], Format(found))
      case DoctypeDetection => Recognized(seen, name)
      case InitProcessing => hasCommand(name, Format(found))
      case _ => true
    }

    // Otherwise more input is read as long as the detection needs it; in any other case the
    // connection is closed.
    predicate Refuses(st: State, seen: seq<Detection>, name: string, op: Operation, st': State)
      reads `eod
    {
      var detecting := st == DoctypeDetection || (st == Init && hasContext && hasDetector);
      && op == (if detecting && !detects(seen) && !eod then READ else CLOSE)
      && st' == if detecting then DoctypeDetection
                else if st == Init && hasContext && Marked(name) then InitProcessing else st
    }

    // The input that is still to be replayed
    function Pending(): string
      reads `buffer, `bufferpos
    {
      if bufferpos == 0 then buffer else ""
    }

    // What the command handler has seen when its answer decides: when it wants to read, it is
    // first given what is to be replayed.
    function Heard(h: seq<Event>, pending: string): seq<Event>
      reads `eod
    {
      if pending != "" && answers(h) == Read then h + [Asked(Read), Put(pending, eod)] else h
    }

    ghost predicate Answered(op: Operation, h: seq<Event>, pending: string)
      reads `eod, `history, `state, `buffer, `writeblock, `writesize, `writepos
    {
      var a := answers(Heard(h, pending));
      && history == Heard(h, pending) + [Asked(a)]
      && match a
         case Read => op == (if eod then CLOSE else READ) && state == Processing && buffer == ""
         case Write(block) =>
           op == WRITE && state == FlushingOutput && writeblock == block && writesize == |block| && writepos == 0
         case Close => if eod then op == CLOSE && state == Done else op == READ && state == DiscardInput
         case Throws => op == CLOSE && state == Processing
    }

    // --- the cases of nextOperation; None goes on with the loop

    method Start() returns (op: Option<Operation>)
      requires Inside() && state == Init
      modifies `state, `cmdname
      ensures Inside() && (op == None || op == Some(CLOSE))
      ensures op == None <==> hasContext && (hasDetector || Marked(old(cmdname)))
      ensures op == None ==> state == (if hasDetector then DoctypeDetection else InitProcessing)
      ensures op == None ==> cmdname == if hasDetector then old(cmdname) else old(cmdname[..|cmdname| - 1])
      ensures op != None ==> state == Init
    {
      if !hasContext {
        return Some(CLOSE);
      }
      if !hasDetector {
        if |cmdname| == 0 || cmdname[|cmdname| - 1] != '!' {
          return Some(CLOSE);
        }
        cmdname := cmdname[..|cmdname| - 1];
        state := InitProcessing;
        return None;
      }
      state := DoctypeDetection;
      return None;
    }

    method Detect() returns (op: Option<Operation>)
      requires Inside() && state == DoctypeDetection
      modifies `detections, `doctypeInfo, `cmdname
      ensures Inside() && detections == old(detections) + [Ran]
      ensures !old(detects(detections)) ==> op == Some(if eod then CLOSE else READ) && cmdname == old(cmdname)
      ensures old(detects(detections)) ==> op == (if info(detections) == None then Some(CLOSE) else None)
      ensures op == None ==> doctypeInfo == info(detections) && cmdname == CommandFor(old(cmdname), doctypeInfo.value.doctype)
    {
      var found := detects(detections);
      detections := detections + [Ran];
      if !found {
        return Some(if eod then CLOSE else READ);
      }
      doctypeInfo := info(detections);
      if doctypeInfo == None {
        return Some(CLOSE);
      }
      if |cmdname| > 0 && cmdname[|cmdname| - 1] == '!' {
        cmdname := cmdname[..|cmdname| - 1];
      } else {
        cmdname := cmdname + doctypeInfo.value.doctype;
      }
      return None;
    }

    // A command handler that is not defined raises an exception, which closes.
    method InitCommand() returns (op: Option<Operation>)
      requires Inside() && (state == DoctypeDetection || state == InitProcessing)
      modifies `hasHandler, `state
      ensures Inside() && (op == None || op == Some(CLOSE))
      ensures op == None <==> hasCommand(cmdname, Format(doctypeInfo))
      ensures op == None ==> state == Processing
      ensures op != None ==> state == old(state)
    {
      var docformat := if doctypeInfo == None then "" else doctypeInfo.value.docformat;
      if !hasCommand(cmdname, docformat) {
        return Some(CLOSE);
      }
      hasHandler := true;
      state := Processing;
      return None;
    }

    lemma BufferedPrefix()
      requires Replaying()
      ensures IsPrefix(Given(history), received)
    {
    }

    method Process() returns (op: Option<Operation>)
      requires Inside() && state == Processing
      modifies `history, `state, `buffer, `bufferpos, `writeblock, `writesize, `writepos
      ensures Inside()
      ensures op == None ==> state == Processing && old(bufferpos) == 0 < |buffer| == bufferpos
      ensures op == None <==> old(Pending()) != "" && old(answers(history)) == Read
      ensures op == None ==> history == Heard(old(history), old(Pending())) && Pending() == ""
      ensures op != None ==> Answered(op.value, old(history), old(Pending()))
      ensures op == Some(READ) && state == Processing ==> Given(history) == received && buffer == "" && !eod
      ensures op == Some(READ) ==> state == Processing || state == DiscardInput
      ensures op == Some(WRITE) ==> state == FlushingOutput
    {
      hide Given, Produced, IsPrefix;
      BufferedPrefix();
      var answer := Ask();
      match answer {
        case Close =>
          if eod {
            state := Done;
            return Some(CLOSE);
          } else {
            state := DiscardInput;
            return Some(READ);
          }
        case Read =>
          op := Reading();
        case Write(block) =>
          op := Writing(block);
        case Throws =>
          return Some(CLOSE);
      }
    }

    // The buffer is replayed first.
    method Reading() returns (op: Option<Operation>)
      requires Inside() && state == Processing
      modifies `history, `buffer, `bufferpos
      ensures Inside()
      ensures op == None ==> old(bufferpos) == 0 < |buffer| == bufferpos
      ensures op == None <==> old(Pending()) != ""
      ensures op == None ==> history == old(history) + [Put(old(buffer), eod)]
      ensures op != None ==> op == Some(if eod then CLOSE else READ) && buffer == "" && history == old(history)
      ensures op == Some(READ) ==> Given(history) == received && buffer == "" && !eod
      ensures op != Some(WRITE)
    {
      hide Given, Produced, IsPrefix;
      if |buffer| > 0 {
        if bufferpos == |buffer| {
          bufferpos := 0;
          buffer := "";
        } else {
          Give(buffer);
          bufferpos := |buffer|;
          return None;
        }
      }
      return Some(if eod then CLOSE else READ);
    }

    method Writing(block: string) returns (op: Option<Operation>)
      requires outputpos <= outputsize <= output.Length && hasHandler && Replaying()
      requires sent + block == Produced(history)
      modifies `state, `writeblock, `writesize, `writepos
      ensures Inside() && state == FlushingOutput && op == Some(WRITE)
      ensures writeblock == block && writesize == |block| && writepos == 0
    {
      hide Given, Produced, IsPrefix;
      writeblock, writesize := block, |block|;
      writepos := 0;
      state := FlushingOutput;
      return Some(WRITE);
    }

    // How much the loop may still do without returning
    ghost function Rank(): nat
      reads this
    {
      match state
      case Init => 6
      case DoctypeDetection => 5
      case InitProcessing => 4
      case FlushingOutput => 3
      case Processing => if bufferpos == 0 then 2 else 1
      case DiscardInput => 0
      case Done => 0
    }

    // The case of the detection falls through into the one behind it.
    method DetectAndInit() returns (op: Option<Operation>)
      requires Inside() && state == DoctypeDetection
      modifies `detections, `doctypeInfo, `cmdname, `hasHandler, `state
      ensures Inside() && op != Some(WRITE)
      ensures op == None <==> Recognized(old(detections), old(cmdname))
      ensures op == None ==> state == Processing
      ensures op != None ==> Refuses(DoctypeDetection, old(detections), old(cmdname), op.value, state)
    {
      op := Detect();
      if op == None {
        op := InitCommand();
      }
    }

    predicate Early(st: State) {
      st == Init || st == DoctypeDetection || st == InitProcessing
    }

    ghost function Snapshot(): Moment
      reads `state, `detections, `cmdname, `doctypeInfo, `history, `buffer, `bufferpos
      reads `writeblock, `writesize, `writepos
    {
      Moment(state, detections, cmdname, doctypeInfo, history, Pending(), writepos == writesize)
    }

    // What a round does from a moment on
    ghost predicate Stepped(m: Moment, op: Option<Operation>)
      reads `state, `detections, `cmdname, `doctypeInfo, `history, `buffer, `bufferpos
      reads `writeblock, `writesize, `writepos, `eod
    {
      && (Early(m.st) ==>
            && history == m.history
            && match op
               case None =>
                 && Pending() == m.pending
                 && if m.st == Init && !hasDetector then Waits(Snapshot(), m)
                    else state == Processing && Opens(m.st, m.seen, m.name, m.found)
               case Some(o) =>
                 !Opens(m.st, m.seen, m.name, m.found) && Refuses(m.st, m.seen, m.name, o, state))
      && (m.st == Processing ==>
            match op
            case None =>
              state == Processing && m.pending != "" && answers(m.history) == Read
              && history == Heard(m.history, m.pending) && Pending() == ""
            case Some(o) => Answered(o, m.history, m.pending))
      && (m.st == FlushingOutput ==>
            && (op == None <==> m.flushed)
            && (op == None ==> state == Processing && history == m.history && Pending() == m.pending))
    }

    // The command handler without a document type is about to be created.
    predicate Waits(now: Moment, m: Moment) {
      && now.st == InitProcessing && m.st == Init && hasContext && !hasDetector && Marked(m.name)
      && now.name == m.name[..|m.name| - 1] && now.found == m.found
      && now.history == m.history && now.pending == m.pending
    }

    // Nothing has been decided since the moment m.
    predicate Going(now: Moment, m: Moment)
      reads `eod
    {
      || Waits(now, m)
      || (&& now.st == Processing && Opens(m.st, m.seen, m.name, m.found)
          && ((now.history == m.history && now.pending == m.pending)
              || (m.pending != "" && answers(m.history) == Read
                  && now.history == Heard(m.history, m.pending) && now.pending == "")))
    }

    // In these states nextOperation asks the command handler, if it gets there.
    predicate Leads(m: Moment) {
      Early(m.st) || m.st == Processing || (m.st == FlushingOutput && m.flushed)
    }

    // What has been decided since the moment m, if anything
    ghost predicate Decided(m: Moment, op: Option<Operation>)
      reads `state, `detections, `cmdname, `doctypeInfo, `history, `buffer, `bufferpos
      reads `writeblock, `writesize, `writepos, `eod
    {
      match op
      case None => Going(Snapshot(), m)
      case Some(o) =>
        if Opens(m.st, m.seen, m.name, m.found) then Answered(o, m.history, m.pending)
        else Refuses(m.st, m.seen, m.name, o, state) && history == m.history
    }

    lemma DecidedFirst(m: Moment, op: Option<Operation>)
      requires Stepped(m, op)
      ensures Leads(m) ==> Decided(m, op)
      ensures op == None && m.st != DiscardInput && m.st != Done ==> Leads(m)
    {
      hide Answered, Refuses, Marked;
    }

    lemma GoingIs(m: Moment)
      ensures Decided(m, None) <==> Going(Snapshot(), m)
    {
      hide Going;
    }

    lemma DecidedLater(m: Moment, now: Moment, op: Option<Operation>)
      requires Going(now, m) && Stepped(now, op)
      ensures Decided(m, op)
    {
      if Waits(now, m) {
        hide Answered, Heard;
      } else {
        hide Refuses, Opens, Marked;
      }
    }

    // The cases in which there is no command handler yet
    method Opening() returns (op: Option<Operation>)
      requires Inside() && Early(state)
      modifies `state, `cmdname, `detections, `doctypeInfo, `hasHandler
      ensures Inside() && Stepped(old(Snapshot()), op)
      ensures op == None ==> Rank() < old(Rank())
      ensures op != Some(WRITE) && (op == Some(READ) ==> state == DoctypeDetection)
    {
      hide Given, Produced, IsPrefix;
      op := None;
      match state {
        case Init =>
          op := Start();
          if op == None && state == DoctypeDetection {
            op := DetectAndInit();
          }
        case DoctypeDetection =>
          op := DetectAndInit();
        case InitProcessing =>
          op := InitCommand();
      }
    }

    // One round of the loop
    method Round() returns (op: Option<Operation>)
      requires Inside()
      modifies `state, `cmdname, `detections, `doctypeInfo, `hasHandler, `history, `buffer, `bufferpos
      modifies `writeblock, `writesize, `writepos
      ensures Inside()
      ensures op == None ==> Rank() < old(Rank())
      ensures Stepped(old(Snapshot()), op)
      ensures op == Some(READ) && state == Processing ==>
        Given(history) == received && sent == Produced(history) && buffer == ""
      ensures op == Some(READ) ==> state == DoctypeDetection || state == Processing || state == DiscardInput
      ensures op == Some(WRITE) ==> state == FlushingOutput
      ensures old(state) == FlushingOutput && old(writepos < writesize) ==>
        op == Some(WRITE) && state == FlushingOutput && history == old(history) && writepos == old(writepos)
      ensures old(state) == DiscardInput ==> op == Some(if eod then CLOSE else READ) && history == old(history)
      ensures old(state) == Done ==> op == Some(CLOSE) && history == old(history)
    {
      hide Given, Produced, IsPrefix, Refuses, Opens, Marked, Answered, Waits;
      op := None;
      match state {
        case Init | DoctypeDetection | InitProcessing =>
          op := Opening();
        case Processing =>
          op := Process();
        case FlushingOutput =>
          if writepos == writesize {
            assert sent + writeblock[writepos..writesize] == sent;
            writepos, writesize := 0, 0;
            state := Processing;
          } else {
            op := Some(WRITE);
          }
        case DiscardInput =>
          op := Some(if eod then CLOSE else READ);
        case Done =>
          op := Some(CLOSE);
      }
    }

    // The input is all given to the command handler when Processing asks for more; what has
    // been given is always the beginning of the input, and all output of the command handler
    // has been sent before it is asked again.  The answer of the command handler decides what is
    // returned, once there is one.
    method NextOperation() returns (op: Operation)
      requires Valid()
      modifies `state, `cmdname, `detections, `doctypeInfo, `hasHandler, `history, `buffer, `bufferpos
      modifies `writeblock, `writesize, `writepos, `closed
      ensures Valid()
      ensures Leads(old(Snapshot())) ==> Decided(old(Snapshot()), Some(op))
      ensures op == READ && state == Processing ==> Given(history) == received && sent == Produced(history)
      ensures op == READ ==> state == DoctypeDetection || state == Processing || state == DiscardInput
      ensures op == WRITE ==> state == FlushingOutput
      ensures old(state) == FlushingOutput && old(writepos < writesize) ==>
        op == WRITE && state == FlushingOutput && history == old(history) && writepos == old(writepos)
      ensures old(state) == DiscardInput ==> op == (if eod then CLOSE else READ) && history == old(history)
      ensures old(state) == Done ==> op == CLOSE && history == old(history)
      ensures closed == (old(closed) || op == CLOSE)
      ensures received == old(received) && sent == old(sent) && eod == old(eod)
      ensures output == old(output) && outputsize == old(outputsize) && outputpos == old(outputpos)
    {
      hide Given, Produced, IsPrefix, Inside, Replaying, Rank, Stepped, Decided, Leads, Early;
      ghost var m := Snapshot();
      var next := Round();
      DecidedFirst(m, next);
      if next == None {
        next := Rounds(m);
      }
      op := next.value;
      closed := closed || op == CLOSE;
    }

    // The rounds of the loop behind the first
    method Rounds(ghost m: Moment) returns (next: Option<Operation>)
      requires Inside() && Decided(m, None)
      modifies `state, `cmdname, `detections, `doctypeInfo, `hasHandler, `history, `buffer, `bufferpos
      modifies `writeblock, `writesize, `writepos
      ensures Inside() && next != None && Decided(m, next)
      ensures next == Some(READ) && state == Processing ==>
        Given(history) == received && sent == Produced(history) && buffer == ""
      ensures next == Some(READ) ==> state == DoctypeDetection || state == Processing || state == DiscardInput
      ensures next == Some(WRITE) ==> state == FlushingOutput
    {
      hide Given, Produced, IsPrefix, Inside, Replaying, Rank, Stepped, Decided, Going, Snapshot;
      next := None;
      while next == None
        invariant Inside() && Decided(m, next)
        invariant next == Some(READ) && state == Processing ==>
          Given(history) == received && sent == Produced(history) && buffer == ""
        invariant next == Some(READ) ==> state == DoctypeDetection || state == Processing || state == DiscardInput
        invariant next == Some(WRITE) ==> state == FlushingOutput
        decreases next == None, Rank()
      {
        ghost var now := Snapshot();
        GoingIs(m);
        next := Round();
        DecidedLater(m, now, next);
      }
    }

    // Input is accepted where it has been asked for; otherwise an exception is raised.
    method PutInput(chunk: string) returns (ok: bool)
      requires Valid() && !closed
      modifies `received, `buffer, `detections, `history
      ensures Valid()
      ensures ok <==> state == DoctypeDetection || state == DiscardInput || state == Processing
      ensures received == old(received) + if ok then chunk else ""
      ensures ok && state == Processing ==> Given(history) == received && history == old(history) + [Put(chunk, eod)]
      ensures ok && state == DoctypeDetection ==>
        detections == old(detections) + [Fed(chunk)] && buffer == received && history == old(history)
      ensures ok && state == DiscardInput ==> history == old(history)
      ensures !ok ==> history == old(history) && buffer == old(buffer) && detections == old(detections)
    {
      hide Given, Produced;
      match state {
        case DoctypeDetection =>
          detections := detections + [Fed(chunk)];
          buffer := buffer + chunk;
        case DiscardInput =>
        case Processing =>
          Give(chunk);
        case Init =>
          return false;
        case InitProcessing =>
          return false;
        case FlushingOutput =>
          return false;
        case Done =>
          return false;
      }
      received := received + chunk;
      return true;
    }

    // The end of the input; there must be a command handler by then.
    method PutEOF()
      requires Valid() && hasHandler
      modifies `eod, `history
      ensures Valid() && eod && Given(history) == Given(old(history))
      ensures history == old(history) + [Put("", true)]
    {
      eod := true;
      Give("");
    }

    // The next piece of the block, as much as there is space for
    method GetOutput() returns (chunk: Option<string>)
      requires Valid()
      modifies `writepos, `sent, output
      ensures Valid()
      ensures chunk == None <==> state != FlushingOutput || outputpos == outputsize
      ensures chunk == None ==> writepos == old(writepos) && sent == old(sent) && output[..] == old(output[..])
      ensures chunk.Some? ==>
        && |chunk.value| == Min(writesize - old(writepos), outputsize - outputpos)
        && writepos == old(writepos) + |chunk.value| && chunk.value == writeblock[old(writepos)..writepos]
        && sent == old(sent) + chunk.value
        && output[..] == old(output[..outputpos]) + chunk.value + old(output[outputpos + |chunk.value|..])
    {
      hide Given, Produced, IsPrefix;
      if state != FlushingOutput || outputpos == outputsize || !hasHandler {
        return None;
      }
      var chunksize;
      if writesize - writepos > outputsize - outputpos {
        chunksize := outputsize - outputpos;
      } else {
        chunksize := writesize - writepos;
      }
      MemCpy(output, outputpos, writeblock, writepos, chunksize);
      chunk := Some(writeblock[writepos..writepos + chunksize]);
      Joined(sent, writeblock, writepos, writepos + chunksize, writesize);
      writepos := writepos + chunksize;
      sent := sent + chunk.value;
    }

    // At any time the command handler has the beginning of the input, in order and once, and
    // what has been sent is the beginning of its output.
    lemma Conservation()
      requires Valid()
      ensures IsPrefix(Given(history), received) && IsPrefix(sent, Produced(history))
      ensures state == FlushingOutput && writepos == writesize ==> sent == Produced(history)
    {
      if state == FlushingOutput {
        assert Produced(history)[..|sent|] == sent;
      }
    }
  }

  method MemCpy(dst: array<char>, at: nat, src: string, begin: nat, n: nat)
    requires at + n <= dst.Length && begin + n <= |src|
    modifies dst
    ensures dst[..] == old(dst[..at]) + src[begin..begin + n] + old(dst[at + n..])
  {
    forall i | 0 <= i < n {
      dst[at + i] := src[begin + i];
    }
  }

  function Min(x: int, y: int): int {
    if x < y then x else y
  }

  ghost predicate IsPrefix(s: string, t: string) {
    |s| <= |t| && s == t[..|s|]
  }
}
