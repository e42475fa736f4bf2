/**
 Which end of a run bridge/internal/relay/relay.go reports, over every schedule: the six outcomes are kept apart by
 what happened, because the user is told a different sentence for each.
 */
module RelayOutcomes {
  import opened Options
  import opened Relay

  /** What may go wrong: the errors of stdout writes and of socket reads, and which single steps can fail. */
  datatype Mishaps = Mishaps(
    writeErrors: set<CopyError>,
    readErrors: set<CopyError>,
    prefix: bool,
    stdin: bool,
    halfClose: bool,
    signal: bool,
    timer: bool)

  predicate Allows(may: Mishaps, a: Action) {
    match a
    case OutWriteFail(_, e) => e in may.writeErrors
    case OutReadFail(e) => e in may.readErrors
    case PrefixFailed(_) => may.prefix
    case InReadFail(_) => may.stdin
    case InWriteFail(_, _) => may.stdin
    case CloseWriteFail => may.halfClose
    case TakeSignal => may.signal
    case TimerFires => may.timer
    case _ => true
  }

  /** The errors by which a failing write to the client is known. */
  const TYPED: set<CopyError> := {ShortWrite, HandleClosed, StdoutFailure}

  predicate From(may: Mishaps, end: CopyEnd) {
    end.Some? ==> end.value in may.writeErrors + may.readErrors
  }

  /** What a result may be, given what may go wrong. */
  predicate Explained(may: Mishaps, outcome: Outcome) {
    match outcome
    case StdoutFailed => may.prefix || exists e | e in may.writeErrors + may.readErrors :: e in TYPED
    case SocketFailed => may.stdin || may.halfClose || exists e | e in may.writeErrors + may.readErrors :: e == Other
    case Signalled => may.signal
    case DrainDeadline => may.timer
    case _ => true
  }

  predicate Sourced(may: Mishaps, w: World) {
    && (w.outCopier.Ended? ==> From(may, w.outCopier.end))
    && (w.toStdout.Some? ==> From(may, w.toStdout.value))
    && (w.inCopier.Ended? && w.inCopier.end.Some? ==> may.stdin)
    && (w.toSocket.Some? && w.toSocket.value.Some? ==> may.stdin)
    && (Over(w.main) ==> Explained(may, w.main.result.outcome))
  }

  lemma StepSourced(may: Mishaps, w: World, a: Action)
    requires Sourced(may, w) && Enabled(w, a) && Allows(may, a)
    ensures Sourced(may, Step(w, a))
  {
    if a.TakeStdoutEnd? && w.toStdout.value.Some? {
      assert w.toStdout.value.value in may.writeErrors + may.readErrors;
    }
  }

  lemma {:induction false} ExecuteSourced(may: Mishaps, w: World, actions: seq<Action>)
    requires Sourced(may, w) && forall a | a in actions :: Allows(may, a)
    ensures Sourced(may, Execute(w, actions))
    decreases |actions|
  {
    if actions != [] {
      assert actions[0] in actions && forall a | a in actions[1..] :: a in actions;
      if Enabled(w, actions[0]) {
        StepSourced(may, w, actions[0]);
        ExecuteSourced(may, Step(w, actions[0]), actions[1..]);
      } else {
        ExecuteSourced(may, w, actions[1..]);
      }
    }
  }

  /**
   Over every schedule a failure is reported as what it was. A failed stdout takes a failing write to the client or
   an error of such a write's kind; a failed socket takes a failing stdin, half-close, or an error of no such kind; a
   signal and a deadline take a signal and the timer.
   */
  lemma OutcomesHaveCauses(prefix: string, wire: string, stdin: string, actions: seq<Action>, may: Mishaps)
    requires forall a | a in actions :: Allows(may, a)
    requires Over(Execute(Start(prefix, wire, stdin), actions).main)
    ensures Explained(may, Execute(Start(prefix, wire, stdin), actions).main.result.outcome)
  {
    ExecuteSourced(may, Start(prefix, wire, stdin), actions);
  }

  lemma EveryError(e: CopyError)
    ensures e in TYPED || e == EndOfFile || e == Other
  {
  }

  /** Nothing fails but writes to the client, and those as the client's. */
  predicate OnlyClientFails(a: Action) {
    && !a.InReadFail? && !a.InWriteFail? && !a.OutReadFail? && !a.CloseWriteFail?
    && (a.OutWriteFail? ==> a.e in TYPED + {EndOfFile})
  }

  /** No write to the client fails, and no read fails as one. */
  predicate ClientNeverFails(a: Action) {
    !a.PrefixFailed? && !a.OutWriteFail? && (a.OutReadFail? ==> a.e !in TYPED)
  }

  /**
   Where only writes to the client fail, with errors of their kind, no run blames the socket; where none fails no run
   blames the client. A signal and a deadline are reported only after a signal and after the timer.
   */
  lemma FailuresKeptApart(prefix: string, wire: string, stdin: string, actions: seq<Action>)
    requires Over(Execute(Start(prefix, wire, stdin), actions).main)
    ensures var outcome := Execute(Start(prefix, wire, stdin), actions).main.result.outcome;
            && ((forall a | a in actions :: OnlyClientFails(a)) ==> outcome != SocketFailed)
            && ((forall a | a in actions :: ClientNeverFails(a)) ==> outcome != StdoutFailed)
            && (outcome == Signalled ==> TakeSignal in actions)
            && (outcome == DrainDeadline ==> TimerFires in actions)
  {
    if forall a | a in actions :: OnlyClientFails(a) {
      var may := Mishaps(TYPED + {EndOfFile}, {}, true, false, false, true, true);
      forall a | a in actions ensures Allows(may, a) {
        assert OnlyClientFails(a);
      }
      OutcomesHaveCauses(prefix, wire, stdin, actions, may);
    }
    if forall a | a in actions :: ClientNeverFails(a) {
      var may := Mishaps({}, {EndOfFile, Other}, false, true, true, true, true);
      forall a | a in actions ensures Allows(may, a) {
        assert ClientNeverFails(a);
        if a.OutReadFail? {
          EveryError(a.e);
        }
      }
      OutcomesHaveCauses(prefix, wire, stdin, actions, may);
    }
    var errors := TYPED + {EndOfFile, Other};
    var may := Mishaps(errors, errors, true, true, true, TakeSignal in actions, TimerFires in actions);
    forall a | a in actions ensures Allows(may, a) {
      if a.OutReadFail? || a.OutWriteFail? {
        EveryError(a.e);
      }
    }
    OutcomesHaveCauses(prefix, wire, stdin, actions, may);
  }

  /**
   Which clean end and which bound it was: after a client's end of file or a deadline the stdin copier's clean report
   had been taken and all of stdin written; after a peer's end it had not been taken. A signal before that report
   closes the connection at once.
   */
  predicate EndsTold(w: World, fromClient: string) {
    && (w.main.HalfClosing? || w.main.Draining? ==> w.inCopier.Sent? && w.toSocket.None?)
    && (Over(w.main) ==>
          match w.main.result.outcome
          case ClientEof => w.inCopier.Sent? && w.toSocket.None? && w.toHost == fromClient
          case DrainDeadline => w.inCopier.Sent? && w.toSocket.None? && w.toHost == fromClient
          case PeerEof => w.inCopier.Sent? ==> w.toSocket.Some?
          case Signalled => w.closed || (w.inCopier.Sent? && w.toSocket.None?)
          case _ => true)
    && (w.main.Selecting? && w.inCopier.Sent? ==> w.toSocket.Some?)
  }

  lemma StepEndsTold(w: World, a: Action, fromClient: string)
    requires Control(w) && ClientBytes(w, fromClient) && EndsTold(w, fromClient) && Enabled(w, a)
    ensures EndsTold(Step(w, a), fromClient)
  {
  }

  lemma {:induction false} ExecuteEndsTold(w: World, actions: seq<Action>, fromClient: string)
    requires Control(w) && ClientBytes(w, fromClient) && EndsTold(w, fromClient)
    ensures EndsTold(Execute(w, actions), fromClient)
    decreases |actions|
  {
    if actions != [] {
      if Enabled(w, actions[0]) {
        StepEndsTold(w, actions[0], fromClient);
        ControlKeeps(w, actions[0]);
        ClientBytesKeep(w, actions[0], fromClient);
        ExecuteEndsTold(Step(w, actions[0]), actions[1..], fromClient);
      } else {
        ExecuteEndsTold(w, actions[1..], fromClient);
      }
    }
  }

  lemma CleanEndsKeptApart(prefix: string, wire: string, stdin: string, actions: seq<Action>)
    ensures EndsTold(Execute(Start(prefix, wire, stdin), actions), stdin)
  {
    Reached(prefix, wire, stdin, []);
    ExecuteEndsTold(Start(prefix, wire, stdin), actions, stdin);
  }
}
