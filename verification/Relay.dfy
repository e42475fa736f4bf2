/**
 bridge/internal/relay/relay.go as interleaved steps: two copiers, the main select, the drain with
 its timer, signals, and the one close. Chunk sizes, failures and the schedule are chosen by the
 environment; a copier the main step no longer waits for keeps running.
 */
module Relay {
  import opened Options
  import Handshake

  /** The error classes the relay tells apart. */
  datatype CopyError = EndOfFile | ShortWrite | HandleClosed | StdoutFailure | Other

  /** How one io.Copy ended: cleanly at its reader's end, or with an error. */
  type CopyEnd = Option<CopyError>

  /** A copier goroutine: not yet started, inside io.Copy, ended but not reported, reported. */
  datatype Copier =
    | NotStarted
    | Reading
    | Holding(chunk: string)
    | Ended(end: CopyEnd)
    | Sent

  datatype Outcome =
    | ClientEof
    | DrainDeadline
    | PeerEof
    | StdoutFailed
    | SocketFailed
    | Signalled

  datatype RunResult = RunResult(outcome: Outcome, halfClosed: bool)

  datatype Main =
    | WritingPrefix
    | Selecting
    | HalfClosing
    | Draining(halfClosed: bool)
    | Returning(result: RunResult)
    | Done(result: RunResult)

  /**
   wire: what the host will still deliver; stdin: what the client will still send. closes and
   closeWrites count calls on the connection. Two fields are history: dropped, the bytes taken from
   the host that a failing stdout write did not accept, and received, the end of the stdout copier as
   the main step took it.
   */
  datatype World = World(
    main: Main,
    prefix: string,
    wire: string,
    stdout: string,
    dropped: string,
    received: Option<CopyEnd>,
    stdoutClosed: bool,
    stdin: string,
    toHost: string,
    inCopier: Copier,
    outCopier: Copier,
    toSocket: Option<CopyEnd>,
    toStdout: Option<CopyEnd>,
    closed: bool,
    closes: nat,
    closeWrites: nat)

  datatype Action =
    | PrefixWritten
    | PrefixFailed(accepted: nat)
    | InRead(n: nat)
    | InReachEnd
    | InReadFail(e: CopyError)
    | InWrite
    | InWriteFail(accepted: nat, e: CopyError)
    | InSend
    | OutRead(n: nat)
    | OutReachEnd
    | OutReadFail(e: CopyError)
    | OutWrite
    | OutWriteFail(accepted: nat, e: CopyError)
    | OutSend
    | TakeSocketEnd
    | TakeStdoutEnd
    | TakeSignal
    | NoHalfClose
    | CloseWrite
    | CloseWriteFail
    | TimerFires
    | Return

  predicate Enabled(w: World, a: Action) {
    match a
    case PrefixWritten => w.main.WritingPrefix?
    case PrefixFailed(n) => w.main.WritingPrefix? && w.prefix != "" && n <= |w.prefix|
    case InRead(n) => w.inCopier.Reading? && 1 <= n <= |w.stdin|
    case InReachEnd => w.inCopier.Reading? && w.stdin == ""
    case InReadFail(e) => w.inCopier.Reading? && e != EndOfFile
    case InWrite => w.inCopier.Holding? && !w.closed
    case InWriteFail(n, e) => w.inCopier.Holding? && n <= |w.inCopier.chunk|
    case InSend => w.inCopier.Ended? && w.toSocket == None
    case OutRead(n) => w.outCopier.Reading? && !w.closed && 1 <= n <= |w.wire|
    case OutReachEnd => w.outCopier.Reading? && !w.closed && w.wire == ""
    case OutReadFail(e) => w.outCopier.Reading? && e != EndOfFile
    case OutWrite => w.outCopier.Holding?
    case OutWriteFail(n, e) => w.outCopier.Holding? && n <= |w.outCopier.chunk|
    case OutSend => w.outCopier.Ended? && w.toStdout == None
    case TakeSocketEnd => w.main.Selecting? && w.toSocket.Some?
    case TakeStdoutEnd => (w.main.Selecting? || w.main.Draining?) && w.toStdout.Some?
    case TakeSignal => w.main.Selecting? || w.main.Draining?
    case NoHalfClose => w.main.HalfClosing?
    case CloseWrite => w.main.HalfClosing?
    case CloseWriteFail => w.main.HalfClosing?
    case TimerFires => w.main.Draining?
    case Return => w.main.Returning?
  }

  function StdoutOrSocket(e: CopyError): Outcome {
    if e == ShortWrite || e == HandleClosed || e == StdoutFailure then StdoutFailed else SocketFailed
  }

  /** What an ended stdout copier means, clean being the outcome of a clean end. */
  function StdoutOutcome(end: CopyEnd, clean: Outcome): Outcome {
    if end.Some? && end.value != EndOfFile then StdoutOrSocket(end.value) else clean
  }

  function CloseConn(w: World): World {
    if w.closed then w else w.(closed := true, closes := w.closes + 1)
  }

  function Step(w: World, a: Action): World
    requires Enabled(w, a)
  {
    match a
    case PrefixWritten =>
      w.(stdout := w.stdout + w.prefix, main := Selecting, inCopier := Reading, outCopier := Reading)
    case PrefixFailed(n) =>
      w.(stdout := w.stdout + w.prefix[..n], dropped := w.prefix[n..],
         main := Returning(RunResult(StdoutFailed, false)))
    case InRead(n) => w.(inCopier := Holding(w.stdin[..n]), stdin := w.stdin[n..])
    case InReachEnd => w.(inCopier := Ended(None))
    case InReadFail(e) => w.(inCopier := Ended(Some(e)))
    case InWrite => w.(inCopier := Reading, toHost := w.toHost + w.inCopier.chunk)
    case InWriteFail(n, e) => w.(inCopier := Ended(Some(e)), toHost := w.toHost + w.inCopier.chunk[..n])
    case InSend => w.(inCopier := Sent, toSocket := Some(w.inCopier.end))
    case OutRead(n) => w.(outCopier := Holding(w.wire[..n]), wire := w.wire[n..])
    case OutReachEnd => w.(outCopier := Ended(None))
    case OutReadFail(e) => w.(outCopier := Ended(Some(e)))
    case OutWrite => w.(outCopier := Reading, stdout := w.stdout + w.outCopier.chunk)
    case OutWriteFail(n, e) =>
      w.(outCopier := Ended(Some(e)), stdout := w.stdout + w.outCopier.chunk[..n], dropped := w.outCopier.chunk[n..])
    case OutSend => w.(outCopier := Sent, toStdout := Some(w.outCopier.end))
    case TakeSocketEnd =>
      if w.toSocket.value.Some? then w.(toSocket := None, main := Returning(RunResult(SocketFailed, false)))
      else w.(toSocket := None, main := HalfClosing)
    case TakeStdoutEnd =>
      var halfClosed := w.main.Draining? && w.main.halfClosed;
      var clean := if w.main.Draining? then ClientEof else PeerEof;
      w.(toStdout := None, received := w.toStdout, stdoutClosed := true,
         main := Returning(RunResult(StdoutOutcome(w.toStdout.value, clean), halfClosed)))
    case TakeSignal =>
      if w.main.Selecting? then CloseConn(w).(main := Returning(RunResult(Signalled, false)))
      else w.(main := Returning(RunResult(Signalled, w.main.halfClosed)))
    case NoHalfClose => w.(main := Draining(false))
    case CloseWrite => w.(closeWrites := w.closeWrites + 1, main := Draining(true))
    case CloseWriteFail => w.(main := Returning(RunResult(SocketFailed, false)))
    case TimerFires => w.(main := Returning(RunResult(DrainDeadline, w.main.halfClosed)))
    case Return => CloseConn(w).(main := Done(w.main.result))
  }

  /** Any schedule; an action that is not enabled when its turn comes is skipped. */
  function Execute(w: World, actions: seq<Action>): World
    decreases |actions|
  {
    if actions == [] then w
    else Execute(if Enabled(w, actions[0]) then Step(w, actions[0]) else w, actions[1..])
  }

  function Start(prefix: string, wire: string, stdin: string): World {
    World(WritingPrefix, prefix, wire, "", "", None, false, stdin, "", NotStarted, NotStarted, None, None, false, 0, 0)
  }

  // ---------------------------------------------------------------- invariant

  function Chunk(c: Copier): string {
    if c.Holding? then c.chunk else ""
  }

  predicate Over(m: Main) {
    m.Returning? || m.Done?
  }

  predicate Clean(m: Main) {
    Over(m) && (m.result.outcome == ClientEof || m.result.outcome == PeerEof)
  }

  /** The end a copier has reached, wherever the report of it is. */
  function EndOf(c: Copier, channel: Option<CopyEnd>): Option<CopyEnd> {
    if c.Ended? then Some(c.end) else channel
  }

  /** Reported, without an error. */
  predicate Cleanly(end: Option<CopyEnd>) {
    end.Some? && end.value.None?
  }

  /** Reported, with the error that is the reader's word for its end. */
  predicate AsEof(end: Option<CopyEnd>) {
    end.Some? && end.value.Some? && end.value.value == EndOfFile
  }

  /** Where every byte from the host is. */
  ghost predicate HostBytes(w: World, fromHost: string) {
    if w.main.WritingPrefix? then w.stdout == "" && w.dropped == "" && w.prefix + w.wire == fromHost
    else w.stdout + (w.dropped + (Chunk(w.outCopier) + w.wire)) == fromHost
  }

  /** What the end of the stdout copier says about them. */
  predicate HostEnds(w: World) {
    && (w.main.WritingPrefix? ==> w.dropped == "")
    && (w.dropped != "" ==> !w.outCopier.Reading? && !w.outCopier.Holding?)
    && (Cleanly(EndOf(w.outCopier, w.toStdout)) || Cleanly(w.received) ==> w.wire == "" && w.dropped == "")
    && (Clean(w.main) ==> Cleanly(w.received) || AsEof(w.received))
  }

  /** Where every byte from the client is. */
  ghost predicate ClientBytes(w: World, fromClient: string) {
    && w.toHost <= fromClient
    && (!w.inCopier.Ended? && !w.inCopier.Sent? ==> w.toHost + Chunk(w.inCopier) + w.stdin == fromClient)
    && (Cleanly(EndOf(w.inCopier, w.toSocket)) ==> w.toHost == fromClient)
    && (w.main.HalfClosing? || w.main.Draining? ==> w.toHost == fromClient)
    && (w.closeWrites > 0 ==> w.toHost == fromClient)
  }

  /** Channels, the close flag and the half-close count. */
  predicate Control(w: World) {
    && (w.main.WritingPrefix? ==> w.inCopier.NotStarted? && w.outCopier.NotStarted?)
    && (w.toSocket.Some? ==> w.inCopier.Sent?) && (w.toStdout.Some? ==> w.outCopier.Sent?)
    && (w.received.Some? ==> w.outCopier.Sent? && w.stdoutClosed && Over(w.main))
    && (w.main.HalfClosing? || w.main.Draining? || w.closeWrites > 0 ==> w.inCopier.Sent?)
    && w.closes == (if w.closed then 1 else 0)
    && (w.main.Done? ==> w.closed) && (w.closed ==> Over(w.main))
    && w.closeWrites == (if (w.main.Draining? && w.main.halfClosed) || (Over(w.main) && w.main.result.halfClosed)
                         then 1 else 0)
  }

  ghost predicate Inv(w: World, fromHost: string, fromClient: string) {
    HostBytes(w, fromHost) && HostEnds(w) && ClientBytes(w, fromClient) && Control(w)
  }

  predicate MainAction(a: Action) {
    !(a.InRead? || a.InReachEnd? || a.InReadFail? || a.InWrite? || a.InWriteFail? || a.InSend?
      || a.OutRead? || a.OutReachEnd? || a.OutReadFail? || a.OutWrite? || a.OutWriteFail? || a.OutSend?)
  }

  lemma ControlKeeps(w: World, a: Action)
    requires Control(w) && Enabled(w, a)
    ensures Control(Step(w, a))
  {
  }

  lemma CopierHostEnds(w: World, a: Action)
    requires Control(w) && HostEnds(w) && Enabled(w, a) && !MainAction(a)
    ensures HostEnds(Step(w, a))
  {
  }

  lemma MainHostEnds(w: World, a: Action)
    requires Control(w) && HostEnds(w) && Enabled(w, a) && MainAction(a)
    ensures HostEnds(Step(w, a))
  {
  }

  lemma HostEndsKeep(w: World, a: Action)
    requires Control(w) && HostEnds(w) && Enabled(w, a)
    ensures HostEnds(Step(w, a))
  {
    if MainAction(a) {
      MainHostEnds(w, a);
    } else {
      CopierHostEnds(w, a);
    }
  }

  lemma HostBytesKeep(w: World, a: Action, fromHost: string)
    requires Control(w) && HostEnds(w) && HostBytes(w, fromHost) && Enabled(w, a)
    ensures HostBytes(Step(w, a), fromHost)
  {
    if a.PrefixWritten? || a.PrefixFailed? {
      PrefixBytesKeep(w, a, fromHost);
    } else if a.OutRead? || a.OutWrite? || a.OutWriteFail? {
      OutBytesKeep(w, a, fromHost);
    }
  }

  lemma PrefixBytesKeep(w: World, a: Action, fromHost: string)
    requires Control(w) && HostBytes(w, fromHost) && Enabled(w, a) && (a.PrefixWritten? || a.PrefixFailed?)
    ensures HostBytes(Step(w, a), fromHost)
  {
    var n := if a.PrefixWritten? then |w.prefix| else a.accepted;
    assert a.PrefixWritten? ==> w.prefix[..n] == w.prefix && w.prefix[n..] == "";
    PrefixBytes(w.prefix, w.wire, n);
  }

  lemma PrefixBytes(prefix: string, wire: string, n: nat)
    requires n <= |prefix|
    ensures prefix + wire == ("" + prefix[..n]) + (prefix[n..] + ("" + wire))
  {
    assert "" + prefix[..n] == prefix[..n] && "" + wire == wire;
    assert prefix[..n] + (prefix[n..] + wire) == (prefix[..n] + prefix[n..]) + wire;
  }

  lemma OutBytesKeep(w: World, a: Action, fromHost: string)
    requires Control(w) && HostEnds(w) && HostBytes(w, fromHost) && Enabled(w, a)
    requires a.OutRead? || a.OutWrite? || a.OutWriteFail?
    ensures HostBytes(Step(w, a), fromHost)
  {
    assert w.dropped == "" && !w.main.WritingPrefix?;
    var n := if a.OutRead? then a.n else if a.OutWrite? then |w.outCopier.chunk| else a.accepted;
    if a.OutRead? {
      ReadBytes(w.stdout, w.wire, n);
    } else {
      assert a.OutWrite? ==> w.outCopier.chunk[..n] == w.outCopier.chunk && w.outCopier.chunk[n..] == "";
      WriteBytes(w.stdout, w.outCopier.chunk, w.wire, n);
    }
  }

  lemma ReadBytes(stdout: string, wire: string, n: nat)
    requires n <= |wire|
    ensures stdout + ("" + ("" + wire)) == stdout + ("" + (wire[..n] + wire[n..]))
  {
    assert "" + wire == wire[..n] + wire[n..];
  }

  lemma WriteBytes(stdout: string, chunk: string, wire: string, n: nat)
    requires n <= |chunk|
    ensures stdout + ("" + (chunk + wire)) == (stdout + chunk[..n]) + (chunk[n..] + ("" + wire))
  {
    assert "" + (chunk + wire) == chunk[..n] + (chunk[n..] + wire) && "" + wire == wire;
  }

  lemma ClientBytesKeep(w: World, a: Action, fromClient: string)
    requires Control(w) && ClientBytes(w, fromClient) && Enabled(w, a)
    ensures ClientBytes(Step(w, a), fromClient)
  {
  }

  lemma {:induction false} ExecuteKeeps(w: World, actions: seq<Action>, fromHost: string, fromClient: string)
    requires Inv(w, fromHost, fromClient)
    ensures Inv(Execute(w, actions), fromHost, fromClient)
    decreases |actions|
  {
    if actions != [] {
      var a := actions[0];
      if Enabled(w, a) {
        ControlKeeps(w, a);
        HostEndsKeep(w, a);
        HostBytesKeep(w, a, fromHost);
        ClientBytesKeep(w, a, fromClient);
        ExecuteKeeps(Step(w, a), actions[1..], fromHost, fromClient);
      } else {
        ExecuteKeeps(w, actions[1..], fromHost, fromClient);
      }
    }
  }

  lemma Reached(prefix: string, wire: string, stdin: string, actions: seq<Action>)
    ensures Inv(Execute(Start(prefix, wire, stdin), actions), prefix + wire, stdin)
  {
    assert "" + stdin == stdin && "" + "" + stdin == stdin;
    ExecuteKeeps(Start(prefix, wire, stdin), actions, prefix + wire, stdin);
  }

  // ---------------------------------------------------------------- over every schedule

  /** What has reached stdout is always a prefix of what the host sent, after the run returned too. */
  lemma StdoutIsPrefix(prefix: string, wire: string, stdin: string, actions: seq<Action>)
    ensures Execute(Start(prefix, wire, stdin), actions).stdout <= prefix + wire
  {
    Reached(prefix, wire, stdin, actions);
  }

  /** A stdout writer that never reports io.EOF, which is the reader's word for a clean end. */
  predicate WriterHonest(actions: seq<Action>) {
    forall a | a in actions && a.OutWriteFail? :: a.e != EndOfFile
  }

  predicate EofFree(w: World) {
    && (w.outCopier.Ended? ==> !AsEof(Some(w.outCopier.end)))
    && !AsEof(w.toStdout) && !AsEof(w.received)
  }

  lemma {:induction false} HonestWriterNeverEof(w: World, actions: seq<Action>)
    requires EofFree(w) && WriterHonest(actions)
    ensures EofFree(Execute(w, actions))
    decreases |actions|
  {
    if actions != [] {
      assert actions[0] in actions && forall a | a in actions[1..] :: a in actions;
      if Enabled(w, actions[0]) {
        HonestStep(w, actions[0]);
        HonestWriterNeverEof(Step(w, actions[0]), actions[1..]);
      } else {
        HonestWriterNeverEof(w, actions[1..]);
      }
    }
  }

  lemma HonestStep(w: World, a: Action)
    requires EofFree(w) && Enabled(w, a) && (a.OutWriteFail? ==> a.e != EndOfFile)
    ensures EofFree(Step(w, a))
  {
  }

  /** Whenever a run ends cleanly, all of what the host sent reached stdout. */
  predicate CleanMeansComplete(w: World, fromHost: string) {
    Clean(w.main) ==> w.stdout == fromHost
  }

  lemma CleanIsComplete(prefix: string, wire: string, stdin: string, actions: seq<Action>)
    requires WriterHonest(actions)
    ensures CleanMeansComplete(Execute(Start(prefix, wire, stdin), actions), prefix + wire)
  {
    Reached(prefix, wire, stdin, actions);
    HonestWriterNeverEof(Start(prefix, wire, stdin), actions);
  }

  predicate ErrorsFrom(actions: seq<Action>, errors: set<CopyError>) {
    forall a | a in actions && a.OutWriteFail? :: a.e in errors
  }

  /**
   Exactly when a clean outcome means a complete stdout: when the writer's possible errors exclude
   io.EOF. The relay treats an end that is io.EOF as the reader's, so a writer reporting it turns lost
   bytes into a clean outcome.
   */
  lemma CompleteExactlyForHonestWriters(prefix: string, wire: string, stdin: string, errors: set<CopyError>)
    requires wire != ""
    ensures (forall actions | ErrorsFrom(actions, errors) ::
               CleanMeansComplete(Execute(Start(prefix, wire, stdin), actions), prefix + wire))
            <==> EndOfFile !in errors
  {
    if EndOfFile in errors {
      RefusedByteIsReported(prefix, wire, stdin, EndOfFile);
      var run := LosingRun(EndOfFile);
      assert ErrorsFrom(run, errors);
    } else {
      forall actions | ErrorsFrom(actions, errors)
        ensures CleanMeansComplete(Execute(Start(prefix, wire, stdin), actions), prefix + wire)
      {
        CleanIsComplete(prefix, wire, stdin, actions);
      }
    }
  }

  /** One byte is read off the wire and refused by stdout with this error. */
  function LosingRun(e: CopyError): seq<Action> {
    [PrefixWritten, OutRead(1), OutWriteFail(0, e), OutSend, TakeStdoutEnd, Return]
  }

  /** How the losing run is reported: an error of the client's kind, the reader's word for its end, or neither. */
  function Blamed(e: CopyError): Outcome {
    match e
    case EndOfFile => PeerEof
    case Other => SocketFailed
    case _ => StdoutFailed
  }

  lemma RefusedByteIsReported(prefix: string, wire: string, stdin: string, e: CopyError)
    requires wire != ""
    ensures var w := Execute(Start(prefix, wire, stdin), LosingRun(e));
            w.main == Done(RunResult(Blamed(e), false)) && w.stdout == prefix && w.stdout != prefix + wire
  {
    var run := LosingRun(e);
    var w0 := Start(prefix, wire, stdin);
    var w1 := Step(w0, PrefixWritten);
    ExecuteFirst(w0, PrefixWritten, run[1..]);
    var w2 := Step(w1, OutRead(1));
    ExecuteFirst(w1, OutRead(1), run[2..]);
    LosesChunk(w2, e, run[3..]);
    assert run[2..] == [OutWriteFail(0, e)] + run[3..];
    assert run[1..] == [OutRead(1)] + run[2..];
    assert run == [PrefixWritten] + run[1..];
    assert w2.stdout == prefix;
  }

  lemma LosesChunk(w: World, e: CopyError, rest: seq<Action>)
    requires w.main.Selecting? && w.outCopier.Holding? && w.toStdout == None && !w.closed
    requires rest == [OutSend, TakeStdoutEnd, Return]
    ensures var end := Execute(w, [OutWriteFail(0, e)] + rest);
            end.main == Done(RunResult(Blamed(e), false)) && end.stdout == w.stdout
  {
    ExecuteFirst(w, OutWriteFail(0, e), rest);
    var w1 := Step(w, OutWriteFail(0, e));
    assert rest == [OutSend] + [TakeStdoutEnd, Return];
    ExecuteFirst(w1, OutSend, [TakeStdoutEnd, Return]);
    var w2 := Step(w1, OutSend);
    assert w2.main.Selecting? && !w2.closed && w2.toStdout == Some(Some(e)) && w2.stdout == w.stdout + w.outCopier.chunk[..0];
    TakeEnd(w2);
  }

  /** The main step takes the stdout copier's report and returns. */
  lemma TakeEnd(w: World)
    requires (w.main.Selecting? || w.main.Draining?) && w.toStdout.Some? && !w.closed
    ensures var end := Execute(w, [TakeStdoutEnd, Return]);
            var clean := if w.main.Draining? then ClientEof else PeerEof;
            && end.main == Done(RunResult(StdoutOutcome(w.toStdout.value, clean), w.main.Draining? && w.main.halfClosed))
            && end.closes == w.closes + 1 && end.stdoutClosed
            && end.inCopier == w.inCopier && end.stdin == w.stdin && end.stdout == w.stdout
  {
    TwoSteps(w, TakeStdoutEnd, Return);
  }

  lemma ExecuteFirst(w: World, a: Action, rest: seq<Action>)
    requires Enabled(w, a)
    ensures Execute(w, [a] + rest) == Execute(Step(w, a), rest)
  {
    assert ([a] + rest)[1..] == rest;
  }

  /**
   The connection is closed at most once, exactly once when the run is over, and never by a copier; the
   write side is closed at most once and only after every byte of stdin was written to the host.
   */
  lemma CloseDiscipline(prefix: string, wire: string, stdin: string, actions: seq<Action>)
    ensures var w := Execute(Start(prefix, wire, stdin), actions);
            && w.closes <= 1 && (w.main.Done? ==> w.closes == 1)
            && w.closeWrites <= 1 && (w.closeWrites == 1 ==> w.toHost == stdin)
            && w.toHost <= stdin
            && (w.main.Done? ==> w.main.result.halfClosed == (w.closeWrites == 1))
  {
    Reached(prefix, wire, stdin, actions);
  }

  lemma OnlyMainCloses(w: World, a: Action)
    requires Enabled(w, a) && !MainAction(a)
    ensures Step(w, a).closes == w.closes && Step(w, a).closed == w.closed && Step(w, a).main == w.main
  {
  }

  /** A copier that ended can always deliver its one report, also when nobody will read it. */
  lemma AbandonedCopierCanReport(prefix: string, wire: string, stdin: string, actions: seq<Action>)
    ensures var w := Execute(Start(prefix, wire, stdin), actions);
            && (w.inCopier.Ended? ==> Enabled(w, InSend) && Step(w, InSend).inCopier.Sent?)
            && (w.outCopier.Ended? ==> Enabled(w, OutSend) && Step(w, OutSend).outCopier.Sent?)
  {
    Reached(prefix, wire, stdin, actions);
  }

  lemma TwoSteps(w: World, a: Action, b: Action)
    requires Enabled(w, a) && Enabled(Step(w, a), b)
    ensures Execute(w, [a, b]) == Step(Step(w, a), b)
  {
    assert [a, b] == [a] + [b] && [b] == [b] + [];
    ExecuteFirst(w, a, [b]);
    ExecuteFirst(Step(w, a), b, []);
  }

  // ---------------------------------------------------------------- every run of the others ends

  predicate StdinAction(a: Action) {
    a.InRead? || a.InReachEnd? || a.InReadFail? || a.InWrite? || a.InWriteFail? || a.InSend?
  }

  function MainRank(m: Main): nat {
    match m
    case WritingPrefix => 5
    case Selecting => 4
    case HalfClosing => 3
    case Draining(_) => 2
    case Returning(_) => 1
    case Done(_) => 0
  }

  function CopierRank(c: Copier): nat {
    match c
    case NotStarted => 4
    case Holding(_) => 3
    case Reading => 2
    case Ended(_) => 1
    case Sent => 0
  }

  /** What is left to do without the stdin copier once the host has nothing more to deliver. */
  function Rank(w: World): nat {
    MainRank(w.main) + CopierRank(w.outCopier)
  }

  /** A schedule of enabled steps, none of them the stdin copier's. */
  predicate Runs(w: World, steps: seq<Action>)
    decreases |steps|
  {
    steps == [] || (Enabled(w, steps[0]) && !StdinAction(steps[0]) && Runs(Step(w, steps[0]), steps[1..]))
  }

  /** Where the report of an ended stdout copier is. */
  predicate Delivers(w: World) {
    && (w.outCopier.NotStarted? ==> w.main.WritingPrefix? || Over(w.main))
    && (w.outCopier.Sent? ==> w.toStdout.Some? || w.received.Some?)
  }

  lemma StepDelivers(w: World, a: Action)
    requires Control(w) && Delivers(w) && Enabled(w, a)
    ensures Delivers(Step(w, a))
  {
  }

  lemma {:induction false} ExecuteDelivers(w: World, actions: seq<Action>)
    requires Control(w) && Delivers(w)
    ensures Control(Execute(w, actions)) && Delivers(Execute(w, actions))
    decreases |actions|
  {
    if actions != [] {
      if Enabled(w, actions[0]) {
        ControlKeeps(w, actions[0]);
        StepDelivers(w, actions[0]);
        ExecuteDelivers(Step(w, actions[0]), actions[1..]);
      } else {
        ExecuteDelivers(w, actions[1..]);
      }
    }
  }

  /** Without more from the host every step of anyone but the stdin copier uses the rank up. */
  lemma RankFalls(w: World, a: Action)
    requires w.wire == "" && Control(w) && Enabled(w, a) && !StdinAction(a)
    ensures Step(w, a).wire == "" && Rank(Step(w, a)) < Rank(w) && Step(w, a).stdin == w.stdin
  {
  }

  /** Anyone but the stdin copier, the timer and a signal. */
  predicate Unaided(a: Action) {
    !StdinAction(a) && !a.TimerFires? && !a.TakeSignal?
  }

  /** And until the run is over one of them can step, the timer and signals aside. */
  lemma SomeoneSteps(w: World)
    requires w.wire == "" && Control(w) && Delivers(w) && !w.main.Done?
    ensures exists a :: Enabled(w, a) && Unaided(a)
  {
    var a := match w.main
      case WritingPrefix => PrefixWritten
      case HalfClosing => NoHalfClose
      case Returning(_) => Return
      case _ =>
        match w.outCopier
        case Holding(_) => OutWrite
        case Ended(_) => OutSend
        case Sent => TakeStdoutEnd
        case _ => OutReachEnd;
    assert Enabled(w, a) && Unaided(a);
  }

  lemma {:induction false} RunsRank(w: World, steps: seq<Action>)
    requires w.wire == "" && Control(w) && Runs(w, steps)
    ensures var end := Execute(w, steps);
            end.wire == "" && |steps| + Rank(end) <= Rank(w) && end.stdin == w.stdin
    decreases |steps|
  {
    if steps != [] {
      RankFalls(w, steps[0]);
      ControlKeeps(w, steps[0]);
      RunsRank(Step(w, steps[0]), steps[1..]);
    }
  }

  /**
   Once the host has nothing more to deliver, a parked stdin read holds nothing up: every schedule of the others
   has at most nine steps, and where none of them can step on, timer and signals not needed, the run has
   returned with the connection closed.
   */
  lemma PeerEndEndsRun(prefix: string, wire: string, stdin: string, actions: seq<Action>, steps: seq<Action>)
    requires var w := Execute(Start(prefix, wire, stdin), actions); w.wire == "" && Runs(w, steps)
    ensures var w := Execute(Start(prefix, wire, stdin), actions);
            var end := Execute(w, steps);
            && |steps| <= 9 && end.stdin == w.stdin
            && ((forall a | Enabled(end, a) :: !Unaided(a)) ==> end.main.Done?)
            && (end.main.Done? ==> end.closed && end.closes == 1)
  {
    var w := Execute(Start(prefix, wire, stdin), actions);
    var end := Execute(w, steps);
    ExecuteDelivers(Start(prefix, wire, stdin), actions);
    ExecuteDelivers(w, steps);
    RunsRank(w, steps);
    if !end.main.Done? {
      SomeoneSteps(end);
    }
  }

  /** A failing copy or half-close, a signal, or the drain's deadline. */
  predicate Mishap(a: Action) {
    || a.PrefixFailed? || a.InReadFail? || a.InWriteFail? || a.OutReadFail? || a.OutWriteFail?
    || a.CloseWriteFail? || a.TakeSignal? || a.TimerFires?
  }

  predicate Unharmed(w: World) {
    && (w.inCopier.Ended? ==> w.inCopier.end == None) && (w.outCopier.Ended? ==> w.outCopier.end == None)
    && (w.toSocket.Some? ==> w.toSocket.value == None) && (w.toStdout.Some? ==> w.toStdout.value == None)
    && (Over(w.main) ==> Clean(w.main))
  }

  lemma StepUnharmed(w: World, a: Action)
    requires Unharmed(w) && Enabled(w, a) && !Mishap(a)
    ensures Unharmed(Step(w, a))
  {
  }

  lemma {:induction false} StaysUnharmed(w: World, actions: seq<Action>)
    requires Unharmed(w) && forall a | a in actions :: !Mishap(a)
    ensures Unharmed(Execute(w, actions))
    decreases |actions|
  {
    if actions != [] {
      assert actions[0] in actions && forall a | a in actions[1..] :: a in actions;
      if Enabled(w, actions[0]) {
        StepUnharmed(w, actions[0]);
        StaysUnharmed(Step(w, actions[0]), actions[1..]);
      } else {
        StaysUnharmed(w, actions[1..]);
      }
    }
  }

  /** Without a mishap such a run ends cleanly with everything the host sent on stdout. */
  lemma PeerEndDelivers(prefix: string, wire: string, stdin: string, actions: seq<Action>)
    requires forall a | a in actions :: !Mishap(a)
    requires Execute(Start(prefix, wire, stdin), actions).main.Done?
    ensures var end := Execute(Start(prefix, wire, stdin), actions);
            Clean(end.main) && end.stdout == prefix + wire
  {
    StaysUnharmed(Start(prefix, wire, stdin), actions);
    CleanIsComplete(prefix, wire, stdin, actions);
  }

  function MainSteps(actions: seq<Action>): nat {
    if actions == [] then 0 else (if MainAction(actions[0]) then 1 else 0) + MainSteps(actions[1..])
  }

  predicate AllEnabled(w: World, steps: seq<Action>)
    decreases |steps|
  {
    steps == [] || (Enabled(w, steps[0]) && AllEnabled(Step(w, steps[0]), steps[1..]))
  }

  lemma {:induction false} MainStepsRank(w: World, steps: seq<Action>)
    requires AllEnabled(w, steps)
    ensures MainSteps(steps) + MainRank(Execute(w, steps).main) <= MainRank(w.main)
    decreases |steps|
  {
    if steps != [] {
      if !MainAction(steps[0]) {
        OnlyMainCloses(w, steps[0]);
      }
      MainStepsRank(Step(w, steps[0]), steps[1..]);
    }
  }

  /**
   A drain is bounded whatever the host and the copiers go on doing: the main step moves at most twice more, and
   where it cannot move any more, the timer being one of its moves, the run has returned and the connection
   is closed. All of stdin had been written before.
   */
  lemma DrainEnds(prefix: string, wire: string, stdin: string, actions: seq<Action>, steps: seq<Action>)
    requires var w := Execute(Start(prefix, wire, stdin), actions); w.main.Draining? && AllEnabled(w, steps)
    ensures var w := Execute(Start(prefix, wire, stdin), actions);
            var end := Execute(w, steps);
            && MainSteps(steps) <= 2 && w.toHost == stdin
            && ((forall a | Enabled(end, a) :: !MainAction(a)) <==> end.main.Done?)
            && (end.main.Done? ==> end.closed && end.closes == 1)
  {
    var w := Execute(Start(prefix, wire, stdin), actions);
    var end := Execute(w, steps);
    Reached(prefix, wire, stdin, actions);
    MainStepsRank(w, steps);
    ExecuteKeeps(w, steps, prefix + wire, stdin);
    if end.main.Draining? {
      assert Enabled(end, TimerFires) && MainAction(TimerFires);
    } else if end.main.Returning? {
      assert Enabled(end, Return) && MainAction(Return);
    }
  }

  /**
   Handshake and relay together, for every chunking of the host's bytes and every schedule: what
   reaches stdout is a prefix of exactly the bytes after the ack's newline, and a clean outcome under
   an honest writer means all of them.
   */
  lemma AckToStdout(stream: string, line: string, prefix: string, wire: string, stdin: string, actions: seq<Action>)
    requires line + "\n" + (prefix + wire) == stream && '\n' !in line
    ensures Handshake.NewlineAt(stream) < |stream|
    ensures var w := Execute(Start(prefix, wire, stdin), actions);
            var after := stream[Handshake.NewlineAt(stream) + 1..];
            && w.stdout <= after
            && (WriterHonest(actions) && Clean(w.main) ==> w.stdout == after)
  {
    Handshake.LineEnds(stream, line, prefix + wire);
    assert stream[|line| + 1..] == prefix + wire;
    StdoutIsPrefix(prefix, wire, stdin, actions);
    if WriterHonest(actions) {
      CleanIsComplete(prefix, wire, stdin, actions);
    }
  }
}
