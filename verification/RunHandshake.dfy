/** ssl_run_handshake (handshake.cc) and the loops of ssl_client_handshake and
    ssl_server_handshake: they take the turns of one side until it is done or has
    to wait, and can be called again. */
module RunHandshake {
  import opened Handshake
  import opened Options
  import C = HandshakeClient
  import S = HandshakeServer

  /** Resolving a wait, as ssl_run_handshake does one item at a time: an item of the
      flight leaves, or the next record is opened.  One of the wrong kind is an error,
      which stays (ssl_set_read_error). */
  datatype Resolved = Resolved(wait: Wait, io: Io, inbox: seq<Item>, sent: seq<Item>)

  function Resolve(wait: Wait, io: Io, inbox: seq<Item>): Resolved {
    match wait
    case Flush =>
      if io.pending == [] then Resolved(Ok, io, inbox, [])
      else Resolved(Flush, io.(pending := io.pending[1..]), inbox, [io.pending[0]])
    case ReadMessage =>
      if inbox == [] then Resolved(wait, io, inbox, [])
      else if inbox[0].Ccs? then Resolved(Error, io, inbox[1..], [])
      else Resolved(Ok, io.(buf := Some(inbox[0].m)), inbox[1..], [])
    case ReadCcs =>
      if inbox == [] then Resolved(wait, io, inbox, [])
      else if inbox[0].Hs? then Resolved(Error, io, inbox[1..], [])
      else Resolved(Ok, io, inbox[1..], [])
    case _ => Resolved(wait, io, inbox, [])
  }

  /** How far a machine is from its end, then how much waits to be flushed, then how
      close it is to its next step. */
  datatype Measure = Measure(toGo: nat, pending: nat, waiting: nat)

  function Waiting(wait: Wait, io: Io): nat {
    match wait
    case Flush => 4
    case ReadCcs => 4
    case ReadMessage => 2
    case _ => if io.buf.None? then 3 else 1
  }

  predicate Below(m: Measure, n: Measure) {
    m.toGo < n.toGo || (m.toGo == n.toGo
        && (m.pending < n.pending || (m.pending == n.pending && m.waiting < n.waiting)))
  }


  // -- One side ----------------------------------------------------------------------------------

  /** The state of one side's machine. */
  datatype Role = AClient(c: C.Client) | AServer(s: S.Server)

  function Do(m: Role, a: Answer): (Wait, Role) {
    match m
    case AClient(c) => var r := C.Do(c, a); (r.0, AClient(r.1))
    case AServer(s) => var r := S.Do(s, a); (r.0, AServer(r.1))
  }

  function IoOf(m: Role): Io {
    match m case AClient(c) => c.io case AServer(s) => s.io
  }

  function WithIo(m: Role, io: Io): Role {
    match m case AClient(c) => AClient(c.(io := io)) case AServer(s) => AServer(s.(io := io))
  }

  predicate IsDone(m: Role) {
    match m case AClient(c) => c.state == C.Done case AServer(s) => s.state == S.Done
  }

  function Left(m: Role): nat {
    match m
    case AClient(c) => C.LAST - C.Rank(c.state, c.neg.resumed)
    case AServer(s) => S.LAST - S.Rank(s.state, s.cfg.neg.resumed)
  }

  /** A machine, its hs->wait, and the records that arrive for it and leave it. */
  datatype Side = Side(m: Role, wait: Wait, inbox: seq<Item>, outbox: seq<Item>)

  /** One turn: a do_* function, or one item of what it waits for. */
  function Turn(e: Side, a: Answer): Side {
    if Runs(e.wait) then
      if IsDone(e.m) then e else var r := Do(e.m, a); e.(wait := r.0, m := r.1)
    else
      var r := Resolve(e.wait, IoOf(e.m), e.inbox);
      Side(WithIo(e.m, r.io), r.wait, r.inbox, e.outbox + r.sent)
  }

  function Turns(e: Side, answers: seq<Answer>): Side {
    if answers == [] then e else Turn(Turns(e, answers[..|answers| - 1]), answers[|answers| - 1])
  }

  lemma OneMoreTurn(e: Side, answers: seq<Answer>, a: Answer)
    ensures Turns(e, answers + [a]) == Turn(Turns(e, answers), a)
  {
    assert (answers + [a])[..|answers|] == answers;
  }

  /** A machine that is not done takes one step. */
  lemma MachineTurn(e: Side, a: Answer)
    requires Runs(e.wait) && !IsDone(e.m)
    ensures Turn(e, a) == e.(wait := Do(e.m, a).0, m := Do(e.m, a).1)
  {
    hide Do, IsDone;
  }

  /** Stands for any machine that has failed. */
  const FAILED := AClient(C.Client(C.Done, C.Config(false, false, false, false),
      Neg(false, Rsa, false, false, false, false),
                                   false, Io([], [], None)))

  /** A wait on the application is over as soon as ssl_run_handshake returns, and a
      machine that has failed is not used again. */
  function Normal(e: Side): Side {
    if Runs(e.wait) then e.(wait := Ok) else if e.wait == Error then e.(m := FAILED) else e
  }

  lemma ErrorsAlike(e: Side, f: Side)
    requires e.wait == f.wait == Error && e.inbox == f.inbox && e.outbox == f.outbox
    ensures Normal(e) == Normal(f)
  {
  }

  lemma ErrorStays(e: Side, a: Answer)
    requires e.wait == Error
    ensures Turn(e, a) == e
  {
    assert e.outbox + [] == e.outbox;
  }

  lemma NormalTurn(e: Side, f: Side, a: Answer)
    requires Normal(e) == Normal(f)
    ensures Normal(Turn(e, a)) == Normal(Turn(f, a))
  {
    hide Do, Resolve;
    if e.wait == Error {
      ErrorStays(e, a);
      ErrorStays(f, a);
    }
  }

  lemma StepFacts(m: Role, a: Answer)
    requires !IsDone(m)
    ensures var (w, m') := Do(m, a);
            && (w == Ok ==> Left(m') < Left(m))
            && (w != Error ==> Left(m') < Left(m) || (m' == m && (w == ReadMessage ==> IoOf(m).buf.None?)))
            && (w != Error && Left(m') >= Left(m) ==> w == ReadMessage || w == Callback)
  {
    hide C.Do, S.Do;
    match m
    case AClient(c) =>
      C.RankRises(c, a);
      C.SuspendedUnchanged(c, a);
      if C.Do(c, a).0 != Error && C.Do(c, a).1.state == c.state {
        C.SuspendsToWait(c, a);
      }
    case AServer(s) =>
      S.RankRises(s, a);
      S.SuspendedUnchanged(s, a);
      if S.Do(s, a).0 != Error && S.Do(s, a).1.state == s.state {
        S.SuspendsToWait(s, a);
      }
  }

  function MeasureOf(m: Role, wait: Wait): Measure {
    Measure(Left(m), |IoOf(m).pending|, Waiting(wait, IoOf(m)))
  }

  /** An item of what is waited for is progress, unless it is the wrong one. */
  lemma ItemProgress(e: Side)
    requires !Runs(e.wait) && e.wait != Error && (e.wait == Flush || e.inbox != [])
    ensures var f := Turn(e, Ready);
            && (e.wait != Flush ==> f.wait == Ok || f.wait == Error)
            && (f.wait != Error ==> Below(MeasureOf(f.m, f.wait), MeasureOf(e.m, e.wait)))
    ensures e.wait == Flush ==>
              var f, n := Turn(e, Ready), |IoOf(e.m).pending|;
              if n == 0 then f.wait == Ok && |IoOf(f.m).pending| == 0
              else f.wait == Flush && |IoOf(f.m).pending| == n - 1
  {
    hide IsDone;
    KeepsLeft(e.m, Resolve(e.wait, IoOf(e.m), e.inbox).io);
  }

  /** A ChangeCipherSpec where a message is expected, or the other way round. */
  predicate WrongItem(e: Side) {
    e.inbox != [] && ((e.wait == ReadMessage && e.inbox[0].Ccs?) || (e.wait == ReadCcs && e.inbox[0].Hs?))
  }

  /** It ends the handshake: whatever is tried then, nothing is sent any more. */
  lemma {:induction false} WrongItemEnds(e: Side, answers: seq<Answer>)
    requires WrongItem(e) && answers != []
    ensures Turns(e, answers).wait == Error && Turns(e, answers).outbox == e.outbox
  {
    var n := |answers| - 1;
    hide Do;
    if n == 0 {
      assert Turns(e, answers[..0]) == e;
      assert e.outbox + [] == e.outbox;
    } else {
      WrongItemEnds(e, answers[..n]);
      ErrorStays(Turns(e, answers[..n]), answers[n]);
    }
  }

  /** The right one is handed over, and nothing else changes. */
  lemma RightItem(e: Side, a: Answer)
    requires e.inbox != [] && !WrongItem(e) && (e.wait == ReadMessage || e.wait == ReadCcs)
    ensures Turn(e, a) == e.(wait := Ok, inbox := e.inbox[1..],
        m := if e.wait == ReadCcs then e.m else WithIo(e.m, IoOf(e.m).(buf := Some(e.inbox[0].m))))
  {
    assert e.outbox + [] == e.outbox;
  }

  // -- The loops -----------------------------------------------------------------------------------

  /** The SSL_HANDSHAKE of one side, which ssl->do_handshake runs. */
  datatype Machine = ClientMachine(c: C.Machine) | ServerMachine(s: S.Machine)

  class Handshaker {
    const hs: Machine
    var wait: Wait
    var inbox: seq<Item>
    var outbox: seq<Item>

    ghost function Repr(): set<object> {
      match hs case ClientMachine(c) => {c, c.ssl} case ServerMachine(s) => {s, s.ssl}
    }

    ghost function Self(): Role
      reads Repr()
    {
      match hs case ClientMachine(c) => AClient(c.Now()) case ServerMachine(s) => AServer(s.Now())
    }

    ghost function Now(): Side
      reads this, Repr()
    {
      Side(Self(), wait, inbox, outbox)
    }

    constructor (hs: Machine)
      ensures this.hs == hs && wait == Ok && inbox == [] && outbox == []
    {
      this.hs, wait, inbox, outbox := hs, Ok, [], [];
    }

    function Conn(): Connection {
      match hs case ClientMachine(c) => c.ssl case ServerMachine(s) => s.ssl
    }

    method AtEnd() returns (done: bool)
      ensures done == IsDone(Self())
    {
      match hs {
        case ClientMachine(c) => return c.state == C.Done;
        case ServerMachine(s) => return s.state == S.Done;
      }
    }

    method Step(a: Answer) returns (ret: Wait)
      requires !IsDone(Self())
      modifies Repr()
      ensures ret == Do(old(Self()), a).0 && (ret != Error ==> Self() == Do(old(Self()), a).1)
    {
      match hs {
        case ClientMachine(c) => ret := c.Step(a);
        case ServerMachine(s) => ret := s.Step(a);
      }
    }

    /** The flight, the buffered message and the transcript become those of `io`. */
    method Become(io: Io)
      modifies Repr()
      ensures Self() == WithIo(old(Self()), io)
    {
      Conn().Become(io);
    }

    /** A read or write that the transport does not take. */
    method BioFails() returns (ret: int)
      ensures ret <= 0
    {
      ret := *;
      if ret > 0 {
        ret := -1;
      }
    }

    /** ssl_client_handshake or ssl_server_handshake: ssl_hs_ok means state_done. */
    method Handshake() returns (ret: Wait, ghost answers: seq<Answer>)
      requires wait == Ok
      modifies Repr()
      ensures ret != Error ==> Side(Self(), ret, inbox, outbox) == Turns(old(Now()), answers)
      ensures ret == Error ==> Normal(Side(Self(), Error, inbox, outbox)) == Normal(Turns(old(Now()), answers))
      ensures ret == Ok ==> IsDone(Self())
      ensures ret != Error && ret != Ok ==> Below(MeasureOf(Self(), ret), old(MeasureOf(Self(), Ok))) || ret == Callback
      ensures ret != Error ==> Left(Self()) < old(Left(Self())) || Self() == old(Self())
    {
      hide Do, IsDone, Left, Turn, Turns, Normal;
      answers, ret := [], Ok;
      Turns0(Now());
      var done := AtEnd();
      while !done
        invariant done == IsDone(Self()) && wait == Ok
        invariant ret == Ok && Side(Self(), Ok, inbox, outbox) == Turns(old(Now()), answers)
        invariant Left(Self()) <= old(Left(Self()))
        invariant Left(Self()) == old(Left(Self())) ==> Self() == old(Self())
        decreases Left(Self())
      {
        var a: Answer := *;
        StepFacts(Self(), a);
        OneMoreTurn(old(Now()), answers, a);
        MachineTurn(Turns(old(Now()), answers), a);
        answers := answers + [a];
        ret := Step(a);
        if ret != Ok {
          if ret == Error {
            ErrorsAlike(Side(Self(), Error, inbox, outbox), Turns(old(Now()), answers));
          }
          return;
        }
        done := AtEnd();
      }
    }

    ghost function Progress(): Measure
      reads this, Repr()
    {
      MeasureOf(Self(), wait)
    }

    /** One item of what is waited for. */
    method TakeItem()
      requires !Runs(wait)
      modifies this, Repr()
      ensures Now() == Turn(old(Now()), Ready)
    {
      hide IsDone;
      var r := Resolve(wait, Conn().Now(), inbox);
      Become(r.io);
      wait, inbox, outbox := r.wait, r.inbox, outbox + r.sent;
    }

    /** A message or a ChangeCipherSpec is read; 0 or less is returned to the caller. */
    method OpenNext() returns (ret: int, ghost answers: seq<Answer>)
      requires wait == ReadMessage || wait == ReadCcs
      modifies this, Repr()
      ensures Now() == Turns(old(Now()), answers)
      ensures ret > 0 ==> wait == Ok && Below(Progress(), old(Progress()))
    {
      hide Turn, MeasureOf, Below;
      if inbox == [] {
        ret := BioFails();
        return ret, [];
      }
      ghost var start := Now();
      OneMoreTurn(start, [], Ready);
      ItemProgress(start);
      TakeItem();
      return if wait == Ok then 1 else -1, [] + [Ready];
    }

    /** The flight is flushed, item by item, as far as the transport takes it. */
    method Flushes() returns (ret: int, ghost answers: seq<Answer>)
      requires wait == Flush
      modifies this, Repr()
      ensures Now() == Turns(old(Now()), answers)
      ensures ret > 0 ==> wait == Ok && Below(Progress(), old(Progress()))
    {
      hide Turn, Turns, MeasureOf, IoOf;
      answers := [];
      ghost var start := Now();
      Turns0(start);
      while wait == Flush
        invariant wait == Flush || wait == Ok
        invariant Now() == Turns(start, answers)
        invariant if wait == Flush then Progress() == old(Progress()) || Below(Progress(), old(Progress()))
                  else Below(Progress(), old(Progress()))
        decreases |IoOf(Self()).pending|, wait == Flush
      {
        var written: bool := *;
        if Conn().pending != [] && !written {
          ret := BioFails();
          return;
        }
        OneMoreTurn(start, answers, Ready);
        answers := answers + [Ready];
        ItemProgress(Now());
        TakeItem();
      }
      return 1, answers;
    }

    /** "Resolve the operation the handshake was waiting on": unless `go`, `ret` is
        returned to the caller. */
    method ResolveWait() returns (go: bool, ret: int, early: bool, ghost answers: seq<Answer>)
      modifies this, Repr()
      ensures Normal(Now()) == Normal(Turns(old(Now()), answers))
      ensures go ==> wait == Ok && ((old(wait) == Ok && Now() == old(Now())) || Below(Progress(), old(Progress())))
      ensures !go ==> (ret == 1 && early) || (ret <= 0 && !early)
      ensures old(wait) == Error ==> !go && ret == -1 && Now() == old(Now())
      ensures old(wait) == Ok ==> go && Now() == old(Now())
      ensures old(wait) == Callback ==> !go && ret == -1 && Now() == old(Now()).(wait := Ok)
      ensures old(wait) == EarlyReturn ==> !go && ret == 1 && Now() == old(Now()).(wait := Ok)
      ensures early <==> old(wait) == EarlyReturn
    {
      hide Turns, Turn, Left, MeasureOf, Below;
      Turns0(Now());
      answers := [];
      match wait {
        case Ok => return true, 1, false, answers;
        case Error => return false, -1, false, answers;
        case Callback =>
          wait := Ok;
          return false, -1, false, answers;
        case EarlyReturn =>
          wait := Ok;
          return false, 1, true, answers;
        case Flush => ret, answers := Flushes();
        case _ => ret, answers := OpenNext();
      }
      return ret > 0, ret, false, answers;
    }

    /** ssl_run_handshake.  Whatever the callbacks and the transport do, it takes
        some turns of this side and no others; 1 without an early return means that
        the handshake is complete. */
    method RunHandshake() returns (ret: int, early: bool, ghost answers: seq<Answer>)
      modifies this, Repr()
      ensures Normal(Now()) == Normal(Turns(old(Now()), answers))
      ensures ret == 1 && !early ==> IsDone(Self()) && wait == Ok
      ensures old(wait) == Error ==> ret == -1 && Now() == old(Now())
      ensures ret == 1 || (ret <= 0 && !early)
    {
      hide Turns, Turn, Left, Normal, IsDone, IoOf;
      answers := [];
      ghost var start := Now();
      Turns0(start);
      while true
        invariant Normal(Now()) == Normal(Turns(start, answers)) && (old(wait) == Error ==> Now() == start)
        decreases Progress().toGo, Progress().pending, Progress().waiting, wait != Callback
      {
        ghost var more: seq<Answer>, before := [], Now();
        var go;
        go, ret, early, more := ResolveWait();
        TurnsAppend(start, before, answers, more);
        answers := answers + more;
        if !go {
          return;
        }
        before := Now();
        var status;
        status, more := Handshake();
        wait := status;
        TurnsAppend(start, before, answers, more);
        answers := answers + more;
        if wait == Error {
          return -1, false, answers;
        }
        if wait == Ok {
          return 1, false, answers;
        }
      }
    }
  }

  lemma Turns0(e: Side)
    ensures Turns(e, []) == e
  {
  }

  lemma KeepsLeft(m: Role, io: Io)
    ensures Left(WithIo(m, io)) == Left(m) && IoOf(WithIo(m, io)) == io && WithIo(m, IoOf(m)) == m
  {
  }

  lemma {:induction false} TurnsAppend(e: Side, f: Side, a: seq<Answer>, b: seq<Answer>)
    requires Normal(f) == Normal(Turns(e, a))
    ensures Normal(Turns(f, b)) == Normal(Turns(e, a + b))
    decreases |b|
  {
    hide Normal, Turn;
    if b == [] {
      assert a + b == a;
    } else {
      var n := |b| - 1;
      TurnsAppend(e, f, a, b[..n]);
      assert (a + b)[..|a + b| - 1] == a + b[..n] && (a + b)[|a + b| - 1] == b[n];
      NormalTurn(Turns(f, b[..n]), Turns(e, a + b[..n]), b[n]);
    }
  }

  // -- Appending to a flight -------------------------------------------------------------------

  /** Part of the flight has left and the flush is not over: pending_flight_offset is not 0. */
  function Partly(e: Side, answers: seq<Answer>): bool {
    answers != [] &&
    var n := |answers| - 1;
    var before := Turns(e, answers[..n]);
    if before.wait == Flush then IoOf(before.m).pending != [] else Partly(e, answers[..n])
  }

  /** Only a flush is under way while part of a flight has left: the machine, which is
      what appends to the flight, runs when none of it has. */
  lemma {:induction false} AppendsOnlyAfterFlush(e: Side, answers: seq<Answer>)
    ensures Partly(e, answers) ==> Turns(e, answers).wait == Flush
    ensures Runs(Turns(e, answers).wait) ==> !Partly(e, answers)
  {
    hide Do;
    if answers != [] {
      var n := |answers| - 1;
      AppendsOnlyAfterFlush(e, answers[..n]);
    }
  }
}
