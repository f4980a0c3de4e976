/** An honest client and server of TLS 1.2 and below, over a reliable in-order
    channel, under any pattern of suspension (handshake.cc and both machines). */
module JointHandshake {
  import opened Handshake
  import opened HandshakeScript
  import opened Options
  import C = HandshakeClient
  import S = HandshakeServer
  import HonestClient
  import HonestServer
  import opened RunHandshake

  /** Both machines with what they wait for, and what is on its way to each. */
  datatype World = World(
    c: C.Client, cwait: Wait, s: S.Server, swait: Wait, toServer: seq<Item>, toClient: seq<Item>)

  /** The client takes a turn: it runs its machine, or resolves what it waits for. */
  function ClientTurn(w: World, a: Answer): World {
    if Runs(w.cwait) then
      if w.c.state == C.Done then w else var r := C.Do(w.c, a); w.(cwait := r.0, c := r.1)
    else
      var r := Resolve(w.cwait, w.c.io, w.toClient);
      w.(cwait := r.wait, c := w.c.(io := r.io), toClient := r.inbox, toServer := w.toServer + r.sent)
  }

  function ServerTurn(w: World, a: Answer): World {
    if Runs(w.swait) then
      if w.s.state == S.Done then w else var r := S.Do(w.s, a); w.(swait := r.0, s := r.1)
    else
      var r := Resolve(w.swait, w.s.io, w.toServer);
      w.(swait := r.wait, s := w.s.(io := r.io), toServer := r.inbox, toClient := w.toClient + r.sent)
  }

  function InHand(io: Io): seq<Item> {
    if io.buf.Some? then [Hs(io.buf.value)] else []
  }

  /** Everything one side has sent and still has to send is what the other side has
      yet to take in. */
  ghost predicate Agrees(p: Params, client: bool, from: Io, channel: seq<Item>, to: Io, i: nat, j: nat)
    requires Live(p, i) && Live(p, j)
  {
    InHand(to) + (channel + (from.pending + Out(p, client, i))) == Out(p, client, j)
  }

  ghost predicate Joint(p: Params, w: World) {
    && HonestClient.InScript(p, w.c, w.cwait) && HonestServer.InScript(p, w.s, w.swait)
    && var i, j := HonestClient.At(p, w.c, w.cwait), HonestServer.At(p, w.s, w.swait);
       && Agrees(p, true, w.c.io, w.toServer, w.s.io, i, j)
       && Agrees(p, false, w.s.io, w.toClient, w.c.io, j, i)
  }

  function Start(p: Params): World {
    World(
      C.Client(C.StartConnect, HonestClient.ConfigOf(p), p.neg, false, Io([], [], None)), Ok,
      S.Server(S.StartAccept, HonestServer.ConfigOf(p), false, Io([], [], None)), Ok,
      [], [])
  }

  lemma StartJoint(p: Params)
    requires Consistent(p)
    ensures Joint(p, Start(p))
  {
    hide Out, Before, Piece;
    PieceAt(p, 0);
    assert [] + ([] + ([] + Out(p, true, 0))) == Out(p, true, 0);
    assert [] + ([] + ([] + Out(p, false, 0))) == Out(p, false, 0);
  }

  // -- Every turn keeps the two sides in agreement ---------------------------------------------------

  /** What is in hand is the other side's next message. */
  lemma AgreesNextIn(p: Params, client: bool, from: Io, channel: seq<Item>, to: Io, i: nat, j: nat)
    requires Live(p, i) && Live(p, j) && Agrees(p, client, from, channel, to, i, j)
    ensures NextIn(p, to.buf, client, j)
  {
    hide Out;
  }

  /** After a step of the sending side. */
  lemma AgreesSender(p: Params, client: bool, from: Io, from': Io, channel: seq<Item>, to: Io, i: nat, i': nat, j: nat)
    requires Live(p, i) && Live(p, i') && Live(p, j) && Agrees(p, client, from, channel, to, i, j)
    requires Moved(p, client, from, i, from', i')
    ensures Agrees(p, client, from', channel, to, i', j)
  {
    hide Out;
    var sent := from'.pending[|from.pending|..];
    assert from'.pending == from.pending + sent;
    assert from.pending + (sent + Out(p, client, i')) == from'.pending + Out(p, client, i');
  }

  /** After a step of the receiving side. */
  lemma AgreesReceiver(p: Params, client: bool, from: Io, channel: seq<Item>, to: Io, to': Io, i: nat, j: nat, j': nat)
    requires Live(p, i) && Live(p, j) && Live(p, j') && Agrees(p, client, from, channel, to, i, j)
    requires Moved(p, !client, to, j, to', j')
    ensures Agrees(p, client, from, channel, to', i, j')
  {
    hide Out;
    var rest := channel + (from.pending + Out(p, client, i));
    if to'.buf == to.buf {
      assert [] + Out(p, client, j') == Out(p, client, j');
    } else {
      assert ([Hs(to.buf.value)] + rest)[1..] == rest;
      assert ([Hs(to.buf.value)] + Out(p, client, j'))[1..] == Out(p, client, j');
      assert [] + rest == rest;
    }
  }

  lemma ClientRuns(p: Params, w: World, a: Answer)
    requires Consistent(p) && Joint(p, w) && a != Failed && Runs(w.cwait)
    ensures Joint(p, ClientTurn(w, a))
  {
    hide Out, Before, Piece, NextIn, Moved, Agrees, HonestClient.InScript, HonestServer.InScript;
    if w.c.state != C.Done {
      var i, j := HonestClient.At(p, w.c, w.cwait), HonestServer.At(p, w.s, w.swait);
      LiveAt(p, w);
      AgreesNextIn(p, false, w.s.io, w.toClient, w.c.io, j, i);
      HonestClient.Step(p, w.c, w.cwait, a);
      var w' := ClientTurn(w, a);
      LiveAt(p, w');
      var i' := HonestClient.At(p, w'.c, w'.cwait);
      AgreesSender(p, true, w.c.io, w'.c.io, w.toServer, w.s.io, i, i', j);
      AgreesReceiver(p, false, w.s.io, w.toClient, w.c.io, w'.c.io, j, i, i');
    }
  }

  lemma LiveAt(p: Params, w: World)
    requires HonestClient.InScript(p, w.c, w.cwait) && HonestServer.InScript(p, w.s, w.swait)
    ensures Live(p, HonestClient.At(p, w.c, w.cwait)) && Live(p, HonestServer.At(p, w.s, w.swait))
  {
  }

  lemma ServerRuns(p: Params, w: World, a: Answer)
    requires Consistent(p) && Joint(p, w) && a != Failed && Runs(w.swait)
    ensures Joint(p, ServerTurn(w, a))
  {
    hide Out, Before, Piece, NextIn, Moved, Agrees, HonestClient.InScript, HonestServer.InScript;
    if w.s.state != S.Done {
      var i, j := HonestClient.At(p, w.c, w.cwait), HonestServer.At(p, w.s, w.swait);
      LiveAt(p, w);
      AgreesNextIn(p, true, w.c.io, w.toServer, w.s.io, i, j);
      HonestServer.Step(p, w.s, w.swait, a);
      var w' := ServerTurn(w, a);
      LiveAt(p, w');
      var j' := HonestServer.At(p, w'.s, w'.swait);
      AgreesSender(p, false, w.s.io, w'.s.io, w.toClient, w.c.io, j, j', i);
      AgreesReceiver(p, true, w.c.io, w.toServer, w.s.io, w'.s.io, i, j, j');
    }
  }

  // -- Waits ---------------------------------------------------------------------------------------

  /** An item of the flight leaves. */
  lemma AgreesSent(p: Params, client: bool, from: Io, channel: seq<Item>, to: Io, i: nat, j: nat)
    requires Live(p, i) && Live(p, j) && Agrees(p, client, from, channel, to, i, j) && from.pending != []
    ensures Agrees(p, client, from.(pending := from.pending[1..]), channel + [from.pending[0]], to, i, j)
  {
    hide Out;
    var tail := from.pending[1..] + Out(p, client, i);
    assert from.pending == [from.pending[0]] + from.pending[1..];
    assert from.pending + Out(p, client, i) == [from.pending[0]] + tail;
    assert channel + ([from.pending[0]] + tail) == channel + [from.pending[0]] + tail;
  }

  /** The next record is a message, taken in hand. */
  lemma AgreesOpened(p: Params, client: bool, from: Io, channel: seq<Item>, to: Io, i: nat, j: nat)
    requires Live(p, i) && Live(p, j) && Agrees(p, client, from, channel, to, i, j) && to.buf.None? && channel != []
    ensures channel[0].Hs? ==> Agrees(p, client, from, channel[1..], to.(buf := Some(channel[0].m)), i, j)
    ensures Out(p, client, j) != [] && Out(p, client, j)[0] == channel[0]
    ensures InHand(to) + (channel[1..] + (from.pending + Out(p, client, i))) == Out(p, client, j)[1..]
  {
    hide Out;
    var rest := from.pending + Out(p, client, i);
    assert channel == [channel[0]] + channel[1..];
    assert channel + rest == [channel[0]] + (channel[1..] + rest);
    assert [] + (channel + rest) == channel + rest;
    assert ([channel[0]] + (channel[1..] + rest))[1..] == channel[1..] + rest;
  }

  /** The client's next incoming item, in a state that wants a message. */
  lemma ClientExpects(p: Params, s: C.State, i: nat)
    requires Consistent(p) && Live(p, i) && HonestClient.Wants(p, s)
    requires i == HonestClient.At(p, C.Client(s, HonestClient.ConfigOf(p), p.neg, false, Io([], [], None)), ReadMessage)
    ensures Out(p, false, i) != [] ==> Out(p, false, i)[0].Hs?
    ensures Head(p, i) == Some(false)
  {
    hide Out, Before, Piece;
    PieceAt(p, i);
    HeadStep(p, i);
    if Piece(p, i).Some? {
      PassOne(p, i);
    } else {
      PassEmpty(p, i);
      PieceAt(p, i + 1);
      HeadStep(p, i + 1);
      if Piece(p, i + 1).Some? {
        PassOne(p, i + 1);
      } else {
        PassEmpty(p, i + 1);
        PieceAt(p, i + 2);
        HeadStep(p, i + 2);
        PassOne(p, i + 2);
      }
    }
  }

  lemma HeadStep(p: Params, i: nat)
    requires Live(p, i) && i < END
    ensures Head(p, i) == if Piece(p, i).Some? then Some(ByClient(i)) else Head(p, Next(p, i))
  {
    hide Piece;
  }

  lemma ServerExpects(p: Params, s: S.State, j: nat)
    requires Consistent(p) && Live(p, j) && HonestServer.Wants(p, s)
    requires j == HonestServer.At(p, S.Server(s, HonestServer.ConfigOf(p), false, Io([], [], None)), ReadMessage)
    ensures Out(p, true, j) != [] ==> Out(p, true, j)[0].Hs?
    ensures Head(p, j) == Some(true)
  {
    hide Out, Before, Piece;
    PieceAt(p, j);
    HeadStep(p, j);
    PassOne(p, j);
  }

  /** The ChangeCipherSpec that a side waits for is opened. */
  lemma AgreesCcs(p: Params, client: bool, from: Io, channel: seq<Item>, to: Io, i: nat, j: nat)
    requires Live(p, i) && Live(p, j) && j < END && Agrees(p, client, from, channel, to, i, j)
    requires to.buf.None? && channel != [] && Piece(p, j) == Some(Ccs) && ByClient(j) == client
    ensures channel[0] == Ccs && Agrees(p, client, from, channel[1..], to, i, Next(p, j))
    ensures Before(p, Next(p, j)) == Before(p, j) && Out(p, !client, j) == Out(p, !client, Next(p, j))
  {
    hide Out, Before, Piece;
    PassOne(p, j);
    AgreesOpened(p, client, from, channel, to, i, j);
    assert ([Ccs] + Out(p, client, Next(p, j)))[1..] == Out(p, client, Next(p, j));
  }

  lemma ClientFlushes(p: Params, w: World, a: Answer)
    requires Joint(p, w) && w.cwait == Flush
    ensures Joint(p, ClientTurn(w, a))
  {
    hide Out, Before, Piece, Agrees, HonestServer.InScript;
    LiveAt(p, w);
    LiveAt(p, ClientTurn(w, a));
    var i, j := HonestClient.At(p, w.c, w.cwait), HonestServer.At(p, w.s, w.swait);
    if w.c.io.pending == [] {
      AgreesKept(p, true, w.c.io, w.toServer, w.s.io, i, j);
    } else {
      AgreesSent(p, true, w.c.io, w.toServer, w.s.io, i, j);
      SameTo(p, w.s.io, w.toClient, w.c.io, w.c.io.(pending := w.c.io.pending[1..]), j, i);
    }
  }

  lemma AgreesKept(p: Params, client: bool, from: Io, channel: seq<Item>, to: Io, i: nat, j: nat)
    requires Live(p, i) && Live(p, j) && Agrees(p, client, from, channel, to, i, j)
    ensures Agrees(p, client, from, channel + [], to, i, j)
  {
    assert channel + [] == channel;
  }

  /** What a side sends does not matter for what it takes in. */
  lemma SameTo(p: Params, from: Io, channel: seq<Item>, to: Io, to': Io, i: nat, j: nat)
    requires Live(p, i) && Live(p, j) && to.buf == to'.buf
    ensures forall client :: Agrees(p, client, from, channel, to, i, j) <==> Agrees(p, client, from, channel, to', i, j)
  {
  }

  /** What a side has in hand does not matter for what it sends. */
  lemma SameFrom(p: Params, from: Io, from': Io, channel: seq<Item>, to: Io, i: nat, j: nat)
    requires Live(p, i) && Live(p, j) && from.pending == from'.pending
    ensures forall client :: Agrees(p, client, from, channel, to, i, j) <==> Agrees(p, client, from', channel, to, i, j)
  {
  }

  /** With nothing to open, a turn changes nothing. */
  lemma Idle(w: World, a: Answer)
    ensures (w.cwait == ReadMessage || w.cwait == ReadCcs) && w.toClient == [] ==> ClientTurn(w, a) == w
    ensures (w.swait == ReadMessage || w.swait == ReadCcs) && w.toServer == [] ==> ServerTurn(w, a) == w
  {
    assert w.toServer + [] == w.toServer && w.toClient + [] == w.toClient;
  }

  lemma ClientTakes(p: Params, c: C.Client, m: Msg)
    requires HonestClient.InScript(p, c, ReadMessage)
    ensures HonestClient.InScript(p, c.(io := c.io.(buf := Some(m))), Ok)
    ensures HonestClient.At(p, c.(io := c.io.(buf := Some(m))), Ok) == HonestClient.At(p, c, ReadMessage)
  {
    hide Before;
  }

  lemma ClientOpens(p: Params, w: World, a: Answer)
    requires Consistent(p) && Joint(p, w) && w.cwait == ReadMessage
    ensures Joint(p, ClientTurn(w, a))
  {
    hide Out, Before, Piece, Agrees, HonestServer.InScript;
    Idle(w, a);
    LiveAt(p, w);
    if w.toClient != [] {
      ClientOpensOne(p, w, a);
    }
  }

  lemma ClientOpensOne(p: Params, w: World, a: Answer)
    requires Consistent(p) && Joint(p, w) && w.cwait == ReadMessage && w.toClient != []
    ensures Joint(p, ClientTurn(w, a))
  {
    hide Out, Before, Piece, Agrees, HonestServer.InScript;
    LiveAt(p, w);
    var i, j := HonestClient.At(p, w.c, w.cwait), HonestServer.At(p, w.s, w.swait);
    assert w.toServer + [] == w.toServer;
    AgreesOpened(p, false, w.s.io, w.toClient, w.c.io, j, i);
    ClientExpects(p, w.c.state, i);
    ClientTakes(p, w.c, w.toClient[0].m);
    hide HonestClient.InScript;
    SameFrom(p, w.c.io, ClientTurn(w, a).c.io, w.toServer, w.s.io, i, j);
  }

  lemma ClientOpensCcs(p: Params, w: World, a: Answer)
    requires Joint(p, w) && w.cwait == ReadCcs
    ensures Joint(p, ClientTurn(w, a))
  {
    hide Out, Before, Piece, Agrees, HonestServer.InScript;
    Idle(w, a);
    LiveAt(p, w);
    var j := HonestServer.At(p, w.s, w.swait);
    if w.toClient != [] {
      assert w.toServer + [] == w.toServer;
      PieceAt(p, 15);
      PassOne(p, 15);
      AgreesCcs(p, false, w.s.io, w.toClient, w.c.io, j, 15);
      SameOut(p, w.c.io, w.toServer, w.s.io, 15, 16, j);
    }
  }

  lemma SameOut(p: Params, from: Io, channel: seq<Item>, to: Io, i: nat, i': nat, j: nat)
    requires Live(p, i) && Live(p, i') && Live(p, j)
    ensures Out(p, true, i) == Out(p, true, i') ==>
              (Agrees(p, true, from, channel, to, i, j) <==> Agrees(p, true, from, channel, to, i', j))
    ensures Out(p, false, i) == Out(p, false, i') ==>
              (Agrees(p, false, from, channel, to, i, j) <==> Agrees(p, false, from, channel, to, i', j))
  {
    hide Out;
  }

  lemma ServerFlushes(p: Params, w: World, a: Answer)
    requires Joint(p, w) && w.swait == Flush
    ensures Joint(p, ServerTurn(w, a))
  {
    hide Out, Before, Piece, Agrees, HonestClient.InScript;
    LiveAt(p, w);
    LiveAt(p, ServerTurn(w, a));
    var i, j := HonestClient.At(p, w.c, w.cwait), HonestServer.At(p, w.s, w.swait);
    if w.s.io.pending == [] {
      AgreesKept(p, false, w.s.io, w.toClient, w.c.io, j, i);
    } else {
      AgreesSent(p, false, w.s.io, w.toClient, w.c.io, j, i);
      SameTo(p, w.c.io, w.toServer, w.s.io, w.s.io.(pending := w.s.io.pending[1..]), i, j);
    }
  }

  lemma ServerTakes(p: Params, s: S.Server, m: Msg)
    requires HonestServer.InScript(p, s, ReadMessage)
    ensures HonestServer.InScript(p, s.(io := s.io.(buf := Some(m))), Ok)
    ensures HonestServer.At(p, s.(io := s.io.(buf := Some(m))), Ok) == HonestServer.At(p, s, ReadMessage)
  {
    hide Before;
  }

  lemma ServerOpens(p: Params, w: World, a: Answer)
    requires Consistent(p) && Joint(p, w) && w.swait == ReadMessage
    ensures Joint(p, ServerTurn(w, a))
  {
    hide Out, Before, Piece, Agrees, HonestClient.InScript;
    Idle(w, a);
    LiveAt(p, w);
    if w.toServer != [] {
      ServerOpensOne(p, w, a);
    }
  }

  lemma ServerOpensOne(p: Params, w: World, a: Answer)
    requires Consistent(p) && Joint(p, w) && w.swait == ReadMessage && w.toServer != []
    ensures Joint(p, ServerTurn(w, a))
  {
    hide Out, Before, Piece, Agrees, HonestClient.InScript;
    LiveAt(p, w);
    var i, j := HonestClient.At(p, w.c, w.cwait), HonestServer.At(p, w.s, w.swait);
    assert w.toClient + [] == w.toClient;
    AgreesOpened(p, true, w.c.io, w.toServer, w.s.io, i, j);
    ServerExpects(p, w.s.state, j);
    ServerTakes(p, w.s, w.toServer[0].m);
    hide HonestServer.InScript;
    SameFrom(p, w.s.io, ServerTurn(w, a).s.io, w.toClient, w.c.io, j, i);
  }

  lemma ServerOpensCcs(p: Params, w: World, a: Answer)
    requires Joint(p, w) && w.swait == ReadCcs
    ensures Joint(p, ServerTurn(w, a))
  {
    hide Out, Before, Piece, Agrees, HonestClient.InScript;
    Idle(w, a);
    LiveAt(p, w);
    var i := HonestClient.At(p, w.c, w.cwait);
    if w.toServer != [] {
      assert w.toClient + [] == w.toClient;
      PieceAt(p, 10);
      PassOne(p, 10);
      AgreesCcs(p, true, w.c.io, w.toServer, w.s.io, i, 10);
      SameOut(p, w.s.io, w.toClient, w.c.io, 10, 11, i);
    }
  }

  // -- Runs ------------------------------------------------------------------------------------------

  /** Which side takes a turn, and what its application answers. */
  datatype Turn = Turn(client: bool, a: Answer)

  function Take(w: World, t: Turn): World {
    if t.client then ClientTurn(w, t.a) else ServerTurn(w, t.a)
  }

  function After(w: World, turns: seq<Turn>): World {
    if turns == [] then w else Take(After(w, turns[..|turns| - 1]), turns[|turns| - 1])
  }

  /** No callback fails for good. */
  predicate Willing(turns: seq<Turn>) {
    forall k :: 0 <= k < |turns| ==> turns[k].a != Failed
  }

  lemma TakeJoint(p: Params, w: World, t: Turn)
    requires Consistent(p) && Joint(p, w) && t.a != Failed
    ensures Joint(p, Take(w, t))
  {
    hide Joint, ClientTurn, ServerTurn;
    NotError(p, w);
    if t.client {
      match w.cwait
      case Flush => ClientFlushes(p, w, t.a);
      case ReadMessage => ClientOpens(p, w, t.a);
      case ReadCcs => ClientOpensCcs(p, w, t.a);
      case _ => ClientRuns(p, w, t.a);
    } else {
      match w.swait
      case Flush => ServerFlushes(p, w, t.a);
      case ReadMessage => ServerOpens(p, w, t.a);
      case ReadCcs => ServerOpensCcs(p, w, t.a);
      case _ => ServerRuns(p, w, t.a);
    }
  }

  lemma NotError(p: Params, w: World)
    requires Joint(p, w)
    ensures w.cwait != Error && w.swait != Error
  {
  }

  lemma {:induction false} KeepsJoint(p: Params, w: World, turns: seq<Turn>)
    requires Consistent(p) && Joint(p, w) && Willing(turns)
    ensures Joint(p, After(w, turns))
  {
    hide Joint, Take;
    if turns != [] {
      var n := |turns| - 1;
      KeepsJoint(p, w, turns[..n]);
      TakeJoint(p, After(w, turns[..n]), turns[n]);
    }
  }

  /** Under every interleaving and every pattern of suspension, neither side rejects
      what the other sends, and both stay in the script. */
  lemma NeverRejected(p: Params, turns: seq<Turn>)
    requires Consistent(p) && Willing(turns)
    ensures var w := After(Start(p), turns);
            Joint(p, w) && w.cwait != Error && w.swait != Error
  {
    hide Joint, Start, Take;
    StartJoint(p);
    KeepsJoint(p, Start(p), turns);
    NotError(p, After(Start(p), turns));
  }

  // -- Progress --------------------------------------------------------------------------------------

  function ClientMeasure(c: C.Client, wait: Wait): Measure {
    Measure(C.LAST - C.Rank(c.state, c.neg.resumed), |c.io.pending|, Waiting(wait, c.io))
  }

  function ServerMeasure(s: S.Server, wait: Wait): Measure {
    Measure(S.LAST - S.Rank(s.state, s.cfg.neg.resumed), |s.io.pending|, Waiting(wait, s.io))
  }

  /** A turn of this side would do something. */
  predicate Enabled(w: World, client: bool) {
    var wait, inbox, done := if client then w.cwait else w.swait, if client then w.toClient else w.toServer,
                             if client then w.c.state == C.Done else w.s.state == S.Done;
    if Runs(wait) then !done else wait == Flush || ((wait == ReadMessage || wait == ReadCcs) && inbox != [])
  }

  /** A client's turn never undoes progress, and makes some when it is enabled and
      the application is ready. */
  lemma ClientProgress(p: Params, w: World, a: Answer)
    requires Consistent(p) && Joint(p, w) && a != Failed
    ensures var w' := ClientTurn(w, a);
            w'.s == w.s && w'.swait == w.swait && w.toServer <= w'.toServer
    ensures var w' := ClientTurn(w, a);
            var m, m' := ClientMeasure(w.c, w.cwait), ClientMeasure(w'.c, w'.cwait);
            && (m' == m || Below(m', m))
            && (Enabled(w, true) && a == Ready ==> Below(m', m))
            && (m' == m && Enabled(w, true) ==> Enabled(w', true))
  {
    hide Joint, C.Do, C.Rank;
    NotError(p, w);
    if Runs(w.cwait) && w.c.state != C.Done {
      ClientRuns(p, w, a);
      NotError(p, ClientTurn(w, a));
      C.RankRises(w.c, a);
      if C.Do(w.c, a).1.state == w.c.state {
        C.SuspendedUnchanged(w.c, a);
        C.SuspendsToWait(w.c, a);
      }
    } else if w.cwait == ReadMessage {
      WantsNothing(p, w);
    } else {
      TakeJoint(p, w, Turn(true, a));
      NotError(p, ClientTurn(w, a));
    }
  }

  lemma WantsNothing(p: Params, w: World)
    requires Consistent(p) && Joint(p, w)
    ensures w.cwait == ReadMessage ==> w.c.io.buf.None? && ClientTurn(w, Ready).cwait != Error
    ensures w.swait == ReadMessage ==> w.s.io.buf.None? && ServerTurn(w, Ready).swait != Error
  {
    hide Out, Before;
    if w.cwait == ReadMessage {
      TakeJoint(p, w, Turn(true, Ready));
    }
    if w.swait == ReadMessage {
      TakeJoint(p, w, Turn(false, Ready));
    }
  }

  lemma ServerProgress(p: Params, w: World, a: Answer)
    requires Consistent(p) && Joint(p, w) && a != Failed
    ensures var w' := ServerTurn(w, a);
            w'.c == w.c && w'.cwait == w.cwait && w.toClient <= w'.toClient
    ensures var w' := ServerTurn(w, a);
            var m, m' := ServerMeasure(w.s, w.swait), ServerMeasure(w'.s, w'.swait);
            && (m' == m || Below(m', m))
            && (Enabled(w, false) && a == Ready ==> Below(m', m))
            && (m' == m && Enabled(w, false) ==> Enabled(w', false))
  {
    hide Joint, S.Do, S.Rank;
    NotError(p, w);
    if Runs(w.swait) && w.s.state != S.Done {
      ServerRuns(p, w, a);
      NotError(p, ServerTurn(w, a));
      S.RankRises(w.s, a);
      if S.Do(w.s, a).1.state == w.s.state {
        S.SuspendedUnchanged(w.s, a);
        S.SuspendsToWait(w.s, a);
      }
    } else if w.swait == ReadMessage {
      WantsNothing(p, w);
    } else {
      TakeJoint(p, w, Turn(false, a));
      NotError(p, ServerTurn(w, a));
    }
  }

  // -- Both sides finish -------------------------------------------------------------------------------

  predicate Finished(w: World) {
    w.c.state == C.Done && w.s.state == S.Done
  }

  /** Whose turn it is, for a side that cannot go on. */
  lemma ClientStuck(p: Params, w: World)
    requires Consistent(p) && Joint(p, w) && !Enabled(w, true)
    ensures w.c.io.buf.None? && w.c.io.pending == []
    ensures var i := HonestClient.At(p, w.c, w.cwait);
            if w.c.state == C.Done then i == END else Live(p, i) && Head(p, i) == Some(false) && w.toClient == []
  {
    hide Out, Before, Piece, Agrees, HonestServer.InScript;
    if w.c.state != C.Done {
      if w.cwait == ReadMessage {
        ClientExpects(p, w.c.state, HonestClient.At(p, w.c, w.cwait));
      } else {
        PieceAt(p, 15);
        HeadStep(p, 15);
      }
    }
  }

  lemma ServerStuck(p: Params, w: World)
    requires Consistent(p) && Joint(p, w) && !Enabled(w, false)
    ensures w.s.io.buf.None? && w.s.io.pending == []
    ensures var j := HonestServer.At(p, w.s, w.swait);
            if w.s.state == S.Done then j == END else Live(p, j) && Head(p, j) == Some(true) && w.toServer == []
  {
    hide Out, Before, Piece, Agrees, HonestClient.InScript;
    if w.s.state != S.Done {
      if w.swait == ReadMessage {
        ServerExpects(p, w.s.state, HonestServer.At(p, w.s, w.swait));
      } else {
        PieceAt(p, 10);
        HeadStep(p, 10);
      }
    }
  }

  /** With nothing in hand and nothing waiting, what is left to send is what the
      channel does not hold of what is left to receive. */
  lemma AgreesSizes(p: Params, client: bool, from: Io, channel: seq<Item>, to: Io, i: nat, j: nat)
    requires Live(p, i) && Live(p, j) && Agrees(p, client, from, channel, to, i, j)
    requires to.buf.None? && from.pending == []
    ensures |channel| + |Out(p, client, i)| == |Out(p, client, j)|
  {
    hide Out;
  }

  lemma NothingAfterEnd(p: Params)
    ensures Out(p, true, END) == [] && Out(p, false, END) == [] && Head(p, END) == None
  {
  }

  /** As long as one side has not finished, one of them can go on: no deadlock. */
  lemma NeverStuck(p: Params, w: World)
    requires Consistent(p) && Joint(p, w) && !Finished(w)
    ensures Enabled(w, true) || Enabled(w, false)
  {
    if !Enabled(w, true) && !Enabled(w, false) {
      hide Out, Before, Piece, Head, Agrees, HonestClient.InScript, HonestServer.InScript;
      LiveAt(p, w);
      var i, j := HonestClient.At(p, w.c, w.cwait), HonestServer.At(p, w.s, w.swait);
      ClientStuck(p, w);
      ServerStuck(p, w);
      AgreesSizes(p, true, w.c.io, w.toServer, w.s.io, i, j);
      AgreesSizes(p, false, w.s.io, w.toClient, w.c.io, j, i);
      NothingAfterEnd(p);
      if Place(p, i) <= Place(p, j) {
        SameHead(p, i, j);
      } else {
        SameHead(p, j, i);
      }
      assert false;
    }
  }

  /** What both sides still have to do. */
  function ToDo(w: World): Measure {
    var c, s := ClientMeasure(w.c, w.cwait), ServerMeasure(w.s, w.swait);
    Measure(c.toGo + s.toGo, c.pending + s.pending, c.waiting + s.waiting)
  }

  /** No turn undoes any progress, and one that makes none leaves a side that can go
      on able to. */
  lemma TurnProgress(p: Params, w: World, t: Turn, client: bool)
    requires Consistent(p) && Joint(p, w) && t.a != Failed
    ensures var w' := Take(w, t);
            && (ToDo(w') == ToDo(w) || Below(ToDo(w'), ToDo(w)))
            && (Enabled(w, t.client) && t.a == Ready ==> Below(ToDo(w'), ToDo(w)))
            && (ToDo(w') == ToDo(w) && Enabled(w, client) ==> Enabled(w', client))
  {
    hide Joint, ClientTurn, ServerTurn, ClientMeasure, ServerMeasure;
    if t.client {
      ClientProgress(p, w, t.a);
    } else {
      ServerProgress(p, w, t.a);
    }
  }

  /** From turn `n` on, this side takes a turn with its application ready. */
  ghost predicate TurnsUp(run: nat -> Turn, n: nat, client: bool) {
    exists m :: n <= m && run(m) == Turn(client, Ready)
  }

  /** Neither side is left out for ever, nor held up by its callbacks for ever. */
  ghost predicate Fair(run: nat -> Turn) {
    && (forall n :: run(n).a != Failed)
    && (forall n, client :: TurnsUp(run, n, client))
  }

  /** The world after the first `n` turns. */
  ghost function WorldAt(w: World, run: nat -> Turn, n: nat): World {
    After(w, seq(n, i requires i >= 0 => run(i)))
  }

  lemma OneMoreTurn(p: Params, w: World, run: nat -> Turn, n: nat)
    requires Consistent(p) && Joint(p, w) && forall n :: run(n).a != Failed
    ensures WorldAt(w, run, n + 1) == Take(WorldAt(w, run, n), run(n)) && Joint(p, WorldAt(w, run, n))
  {
    hide Joint, Take;
    assert seq(n + 1, i requires i >= 0 => run(i))[..n] == seq(n, i requires i >= 0 => run(i));
    KeepsJoint(p, w, seq(n, i requires i >= 0 => run(i)));
  }

  /** A side that can go on still can at turn `m`, or progress was made before. */
  lemma {:induction false} StaysEnabled(p: Params, w: World, run: nat -> Turn, n: nat, m: nat, client: bool)
    requires Consistent(p) && Joint(p, w) && (forall n :: run(n).a != Failed)
    requires n <= m && Enabled(WorldAt(w, run, n), client)
    ensures var before, after := WorldAt(w, run, n), WorldAt(w, run, m);
            Below(ToDo(after), ToDo(before)) || (ToDo(after) == ToDo(before) && Enabled(after, client))
    decreases m - n
  {
    hide Joint, ToDo, Enabled, Take, WorldAt;
    if n < m {
      StaysEnabled(p, w, run, n, m - 1, client);
      OneMoreTurn(p, w, run, m - 1);
      TurnProgress(p, WorldAt(w, run, m - 1), run(m - 1), client);
    }
  }

  /** From any point of any run, every fair schedule brings both sides to state_done,
      however often it suspends them first. */
  lemma {:induction false} FairRunFinishes(p: Params, w: World, run: nat -> Turn, n: nat) returns (end: nat)
    requires Consistent(p) && Joint(p, w) && Fair(run)
    ensures n <= end && Finished(WorldAt(w, run, end))
    decreases ToDo(WorldAt(w, run, n)).toGo, ToDo(WorldAt(w, run, n)).pending, ToDo(WorldAt(w, run, n)).waiting
  {
    hide Joint, ToDo, Enabled, Take, WorldAt, Finished;
    if Finished(WorldAt(w, run, n)) {
      return n;
    }
    OneMoreTurn(p, w, run, n);
    NeverStuck(p, WorldAt(w, run, n));
    var client := Enabled(WorldAt(w, run, n), true);
    assert TurnsUp(run, n, client);
    var m :| n <= m && run(m) == Turn(client, Ready);
    StaysEnabled(p, w, run, n, m, client);
    OneMoreTurn(p, w, run, m);
    TurnProgress(p, WorldAt(w, run, m), run(m), client);
    end := FairRunFinishes(p, w, run, m + 1);
  }

  // -- What they have then ------------------------------------------------------------------------------

  function FinishedIn(msgs: seq<Msg>, byServer: bool): nat {
    if msgs == [] then 0
    else FinishedIn(msgs[..|msgs| - 1], byServer) +
         if msgs[|msgs| - 1].Finished? && msgs[|msgs| - 1].byServer == byServer then 1 else 0
  }

  lemma FinishedAppend(msgs: seq<Msg>, m: Msg, byServer: bool)
    ensures FinishedIn(msgs + [m], byServer)
         == FinishedIn(msgs, byServer) + if m.Finished? && m.byServer == byServer then 1 else 0
  {
    assert (msgs + [m])[..|msgs|] == msgs;
  }

  /** Up to each milestone the script has the Finished messages before it, once. */
  lemma {:induction false} FinishedBefore(p: Params, i: nat, byServer: bool)
    requires Live(p, i)
    ensures FinishedIn(Before(p, i), byServer) == if Place(p, if byServer then 16 else 13) < Place(p, i) then 1 else 0
    decreases Place(p, i)
  {
    hide Before, Out, Piece;
    PieceAt(p, i);
    if i > 0 {
      var j := Prev(p, i);
      PlaceNext(p, j);
      PieceAt(p, j);
      FinishedBefore(p, j, byServer);
      if Piece(p, j).Some? {
        PassOne(p, j);
        if Piece(p, j).value.Hs? {
          FinishedAppend(Before(p, j), Piece(p, j).value.m, byServer);
        }
      } else {
        PassEmpty(p, j);
      }
    }
  }

  lemma ClientTranscript(p: Params, w: World)
    requires Joint(p, w) && w.c.state == C.Done
    ensures w.c.io.transcript == Before(p, END)
  {
    hide Before, Out, Piece, Agrees, Head, HonestServer.InScript;
  }

  lemma ServerTranscript(p: Params, w: World)
    requires Joint(p, w) && w.s.state == S.Done
    ensures w.s.io.transcript == Before(p, END)
  {
    hide Before, Out, Piece, Agrees, Head, HonestClient.InScript;
  }

  /** When both are done, each has sent one Finished and checked one, and the two
      transcripts are the same. */
  lemma OneFinishedEach(p: Params, w: World)
    requires Consistent(p) && Joint(p, w) && Finished(w)
    ensures w.c.io.transcript == w.s.io.transcript
    ensures FinishedIn(w.c.io.transcript, true) == 1 && FinishedIn(w.c.io.transcript, false) == 1
  {
    hide Joint, Before, FinishedIn;
    ClientTranscript(p, w);
    ServerTranscript(p, w);
    FinishedBefore(p, END, true);
    FinishedBefore(p, END, false);
  }

  /** For every consistent setting of the flags and every fair schedule, an honest
      client and server complete the handshake, with one Finished from each side in
      the transcript they agree on. */
  lemma HandshakeCompletes(p: Params, run: nat -> Turn) returns (end: nat)
    requires Consistent(p) && Fair(run)
    ensures var w := WorldAt(Start(p), run, end);
            && Finished(w) && w.c.io.transcript == w.s.io.transcript
            && FinishedIn(w.c.io.transcript, true) == 1 && FinishedIn(w.c.io.transcript, false) == 1
  {
    hide Joint, Start, WorldAt, Finished, FinishedIn;
    StartJoint(p);
    end := FairRunFinishes(p, Start(p), run, 0);
    OneMoreTurn(p, Start(p), run, end);
    OneFinishedEach(p, WorldAt(Start(p), run, end));
  }

  /** Taking turns is fair. */
  lemma TurnAboutIsFair()
    ensures Fair((n: nat) => Turn(n % 2 == 0, Ready))
  {
    var run := (n: nat) => Turn(n % 2 == 0, Ready);
    forall n: nat, client: bool ensures TurnsUp(run, n, client) {
      var m := if (n % 2 == 0) == client then n else n + 1;
      assert run(m) == Turn(client, Ready);
    }
  }

  // -- What ssl_run_handshake does on one side ------------------------------------------------------------

  /** What one side sees of the world. */
  function ClientView(w: World): Side {
    Side(AClient(w.c), w.cwait, w.toClient, w.toServer)
  }

  function ServerView(w: World): Side {
    Side(AServer(w.s), w.swait, w.toServer, w.toClient)
  }

  /** A call of ssl_run_handshake makes turns of its own side only, each of which is a
      turn of the joint run. */
  lemma {:induction false} CallsTakeTurns(p: Params, w: World, client: bool, answers: seq<Answer>)
    requires Consistent(p) && Joint(p, w) && Failed !in answers
    ensures var w' := After(w, seq(|answers|, i requires 0 <= i < |answers| => Turn(client, answers[i])));
            Joint(p, w') && if client then ClientView(w') == Turns(ClientView(w), answers)
                            else ServerView(w') == Turns(ServerView(w), answers)
  {
    hide Joint, C.Do, S.Do, Resolve;
    var turns := seq(|answers|, i requires 0 <= i < |answers| => Turn(client, answers[i]));
    KeepsJoint(p, w, turns);
    if answers != [] {
      var n := |answers| - 1;
      assert turns[..n] == seq(n, i requires 0 <= i < n => Turn(client, answers[..n][i]));
      CallsTakeTurns(p, w, client, answers[..n]);
    }
  }
}
