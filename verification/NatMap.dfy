/**
 The UDP relay's address map (relay/udp_natmap.go): a main loop forwards packets from clients, opening one
 outbound socket per source address, and for each socket a handler goroutine carries the answers back until it
 times out. The main loop and the handlers share the map from sources to sockets; here they are interleaved step
 by step, in any order.
 */
module NatMap {
  import opened Common

  type Socket = nat

  /** A packet being relayed: who sent it, and where it is to go. */
  datatype Packet = Packet(src: string, target: string)

  /** Where the main loop is, between any two of its actions on shared state. */
  datatype MainPc =
    | Waiting                                   // about to read the next packet
    | Received(packet: Packet)                  // about to look the source up
    | Missed(packet: Packet)                    // not in the map; about to open a socket
    | Opened(packet: Packet, socket: Socket)    // about to store it in the map
    | Stored(packet: Packet, socket: Socket)    // about to start the handler
    | Ready(packet: Packet, socket: Socket)     // about to send the packet on
    | Collecting(todo: set<string>, conns: set<Socket>)  // reading failed; going over the map, some keys still to visit
    | Closing(conns: set<Socket>)               // closing the sockets collected
    | Stopped

  /** A handler reads answers, or has closed its socket and is about to remove its map entry. */
  datatype HandlerPc = Reading | Closed

  datatype Handler = Handler(packet: Packet, pc: HandlerPc)

  /** An answer carried back: through which socket, from whom (if the socket says), and to which source. */
  datatype Answer = Answer(socket: Socket, from: Option<string>, to: string)

  /** What becomes of a packet: sent on through a socket, or dropped because none could be opened or it was closed. */
  datatype Fate = Sent(socket: Socket, packet: Packet) | Unopened(packet: Packet) | TooLate(socket: Socket, packet: Packet)

  /** The shared state; `openedFor` and the three lists are history. */
  datatype State = State(
    main: MainPc,
    cache: map<string, Socket>,
    handlers: map<Socket, Handler>,
    open: set<Socket>,
    next: Socket,
    openedFor: map<Socket, Packet>,
    answers: seq<Answer>,
    received: seq<Packet>,
    fates: seq<Fate>)

  const INITIAL := State(Waiting, map[], map[], {}, 0, map[], [], [], [])

  /**
   The atomic steps. The closing pass over the map takes no lock, so it visits one key at a time, in any order, and
   misses entries that handlers remove ahead of it. Booleans say whether an outside operation succeeds.
   */
  datatype Step =
    | MainReceive(packet: Packet, ok: bool)
    | MainLookup
    | MainOpen(ok: bool)
    | MainStore
    | MainSpawn
    | MainSend
    | MainFail
    | MainCollect(src: string)
    | MainCollected
    | MainClose(socket: Socket)
    | MainStop
    | HandlerReceive(socket: Socket, from: Option<string>, ok: bool)
    | HandlerClose(socket: Socket)
    | HandlerDelete(socket: Socket)

  /** The state after a step; a step that is not due changes nothing. */
  function Apply(s: State, step: Step): State {
    match step
    case MainReceive(packet, ok) =>
      if s.main.Waiting? && ok then s.(main := Received(packet), received := s.received + [packet]) else s
    case MainLookup =>
      if !s.main.Received? then s
      else if s.main.packet.src in s.cache then s.(main := Ready(s.main.packet, s.cache[s.main.packet.src]))
      else s.(main := Missed(s.main.packet))
    case MainOpen(ok) =>
      if !s.main.Missed? then s
      else if !ok then s.(main := Waiting, fates := s.fates + [Unopened(s.main.packet)])
      else s.(main := Opened(s.main.packet, s.next), open := s.open + {s.next}, next := s.next + 1,
              openedFor := s.openedFor[s.next := s.main.packet])
    case MainStore =>
      if !s.main.Opened? then s
      else s.(main := Stored(s.main.packet, s.main.socket), cache := s.cache[s.main.packet.src := s.main.socket])
    case MainSpawn =>
      if !s.main.Stored? then s
      else s.(main := Ready(s.main.packet, s.main.socket), handlers := s.handlers[s.main.socket := Handler(s.main.packet, Reading)])
    case MainSend =>
      if !s.main.Ready? then s
      else
        var fate := if s.main.socket in s.open then Sent(s.main.socket, s.main.packet) else TooLate(s.main.socket, s.main.packet);
        s.(main := Waiting, fates := s.fates + [fate])
    case MainFail =>
      if s.main.Waiting? then s.(main := Collecting(s.cache.Keys, {})) else s
    case MainCollect(src) =>
      if !(s.main.Collecting? && src in s.main.todo) then s
      else s.(main := Collecting(s.main.todo - {src}, if src in s.cache then s.main.conns + {s.cache[src]} else s.main.conns))
    case MainCollected =>
      if s.main.Collecting? && s.main.todo == {} then s.(main := Closing(s.main.conns)) else s
    case MainClose(k) =>
      if s.main.Closing? && k in s.main.conns then s.(main := Closing(s.main.conns - {k}), open := s.open - {k}) else s
    case MainStop =>
      if s.main.Closing? && s.main.conns == {} then s.(main := Stopped) else s
    case HandlerReceive(k, from, ok) =>
      if !(k in s.handlers && s.handlers[k].pc.Reading? && k in s.open) then s
      else
        var packet := s.handlers[k].packet;
        if packet.target != "" && from.Some? && from.value != packet.target then s
        else if !ok then s
        else s.(answers := s.answers + [Answer(k, from, packet.src)])
    case HandlerClose(k) =>
      if k in s.handlers && s.handlers[k].pc.Reading?
      then s.(handlers := s.handlers[k := s.handlers[k].(pc := Closed)], open := s.open - {k}) else s
    case HandlerDelete(k) =>
      if k in s.handlers && s.handlers[k].pc.Closed?
      then s.(handlers := s.handlers - {k}, cache := s.cache - {s.handlers[k].packet.src}) else s
  }

  function Run(s: State, steps: seq<Step>): State
    decreases |steps|
  {
    if steps == [] then s else Run(Apply(s, steps[0]), steps[1..])
  }

  // -------- the invariant --------

  /** The socket the main loop has opened and not yet handed to a handler. */
  ghost function InHand(s: State): set<Socket> {
    if s.main.Opened? || s.main.Stored? then {s.main.socket} else {}
  }

  /** The main loop's position agrees with the map. */
  ghost predicate MainSound(s: State) {
    match s.main
    case Missed(packet) => packet.src !in s.cache
    case Opened(packet, k) =>
      packet.src !in s.cache && k !in s.handlers && k in s.openedFor && s.openedFor[k] == packet
    case Stored(packet, k) =>
      packet.src in s.cache && s.cache[packet.src] == k && k !in s.handlers && k in s.openedFor && s.openedFor[k] == packet
    case Ready(packet, k) => k in s.openedFor && s.openedFor[k].src == packet.src
    case _ => true
  }

  /** Every handler is the one its source maps to, and runs for the packet its socket was opened for. */
  ghost predicate HandlersSound(s: State) {
    forall k :: k in s.handlers ==>
      var h := s.handlers[k];
      && k in s.openedFor && s.openedFor[k] == h.packet
      && h.packet.src in s.cache && s.cache[h.packet.src] == k
      && (h.pc.Closed? ==> k !in s.open)
  }

  /** Every map entry has a handler, or is about to get one. */
  ghost predicate CacheSound(s: State) {
    forall src :: src in s.cache ==>
      && (s.cache[src] in s.handlers || (s.main.Stored? && s.main.socket == s.cache[src]))
      && s.cache[src] in s.openedFor && s.openedFor[s.cache[src]].src == src
  }

  ghost predicate SocketsSound(s: State) {
    && (forall k :: k in s.openedFor ==> k < s.next)
    && s.open <= s.handlers.Keys + InHand(s)
  }

  ghost predicate AnswersSound(s: State) {
    forall a :: a in s.answers ==>
      && a.socket in s.openedFor && a.to == s.openedFor[a.socket].src
      && (a.from.Some? && s.openedFor[a.socket].target != "" ==> a.from.value == s.openedFor[a.socket].target)
  }

  ghost predicate FatesSound(s: State) {
    forall x :: x in s.fates ==>
      && (!x.Unopened? ==> x.socket in s.openedFor && s.openedFor[x.socket].src == x.packet.src)
      && (x.TooLate? ==> x.socket !in s.open)
  }

  ghost predicate Conserved(s: State) {
    s.received == PacketsOf(s.fates) + Carried(s)
  }

  ghost predicate HistorySound(s: State) {
    AnswersSound(s) && FatesSound(s) && Conserved(s)
  }

  ghost function PacketsOf(fates: seq<Fate>): (r: seq<Packet>)
    ensures |r| == |fates| && forall i :: 0 <= i < |r| ==> r[i] == fates[i].packet
  {
    seq(|fates|, i requires 0 <= i < |fates| => fates[i].packet)
  }

  /** The packet the main loop is busy with. */
  ghost function Carried(s: State): seq<Packet> {
    if s.main.Received? || s.main.Missed? || s.main.Opened? || s.main.Stored? || s.main.Ready? then [s.main.packet] else []
  }

  /** Every open socket is among those the closing pass has collected or will still come by. */
  ghost predicate ClosingSound(s: State) {
    match s.main
    case Collecting(todo, conns) =>
      forall k :: k in s.open ==> k in conns || (k in s.openedFor && s.openedFor[k].src in todo)
    case Closing(conns) => s.open <= conns
    case Stopped => s.open == {}
    case _ => true
  }

  /** Main loop, handlers, map and sockets agree. */
  ghost predicate Shape(s: State) {
    MainSound(s) && HandlersSound(s) && CacheSound(s) && SocketsSound(s) && ClosingSound(s)
  }

  ghost predicate Sound(s: State) {
    Shape(s) && HistorySound(s)
  }

  lemma MainStepSound(s: State, step: Step)
    requires Shape(s) && (step.MainReceive? || step.MainLookup? || step.MainSend? || step.MainFail?)
    ensures Shape(Apply(s, step))
  {
  }

  lemma OpenStepSound(s: State, step: Step)
    requires Shape(s) && (step.MainOpen? || step.MainStore? || step.MainSpawn?)
    ensures Shape(Apply(s, step))
  {
  }

  lemma ClosingStepSound(s: State, step: Step)
    requires Shape(s) && (step.MainCollect? || step.MainCollected? || step.MainClose? || step.MainStop?)
    ensures Shape(Apply(s, step))
  {
  }

  lemma HandlerStepSound(s: State, step: Step)
    requires Shape(s) && (step.HandlerReceive? || step.HandlerClose? || step.HandlerDelete?)
    ensures Shape(Apply(s, step))
  {
  }

  /** The history stays true: it only grows, sockets once closed stay closed, and each packet has one fate. */
  lemma HistoryStepSound(s: State, step: Step)
    requires Sound(s)
    ensures HistorySound(Apply(s, step))
  {
    hide Apply, AnswersSound, FatesSound, Conserved;
    AnswersStepSound(s, step);
    FatesStepSound(s, step);
    ConservedStep(s, step);
  }

  lemma AnswersStepSound(s: State, step: Step)
    requires HandlersSound(s) && SocketsSound(s) && AnswersSound(s)
    ensures AnswersSound(Apply(s, step))
  {
  }

  lemma FatesStepSound(s: State, step: Step)
    requires MainSound(s) && SocketsSound(s) && FatesSound(s)
    ensures FatesSound(Apply(s, step))
  {
  }

  lemma ConservedStep(s: State, step: Step)
    requires Conserved(s)
    ensures Conserved(Apply(s, step))
  {
    var t := Apply(s, step);
    if |t.fates| > |s.fates| {
      assert PacketsOf(t.fates) == PacketsOf(s.fates) + [t.fates[|s.fates|].packet];
    }
  }

  lemma ApplySound(s: State, step: Step)
    requires Sound(s)
    ensures Sound(Apply(s, step))
  {
    hide Apply, Shape;
    HistoryStepSound(s, step);
    match step
    case MainReceive(_, _) => MainStepSound(s, step);
    case MainLookup => MainStepSound(s, step);
    case MainSend => MainStepSound(s, step);
    case MainFail => MainStepSound(s, step);
    case MainOpen(_) => OpenStepSound(s, step);
    case MainStore => OpenStepSound(s, step);
    case MainSpawn => OpenStepSound(s, step);
    case MainCollect(_) => ClosingStepSound(s, step);
    case MainCollected => ClosingStepSound(s, step);
    case MainClose(_) => ClosingStepSound(s, step);
    case MainStop => ClosingStepSound(s, step);
    case HandlerReceive(_, _, _) => HandlerStepSound(s, step);
    case HandlerClose(_) => HandlerStepSound(s, step);
    case HandlerDelete(_) => HandlerStepSound(s, step);
  }

  lemma {:induction false} RunSound(s: State, steps: seq<Step>)
    requires Sound(s)
    ensures Sound(Run(s, steps))
    decreases |steps|
  {
    hide Apply, Sound;
    if steps != [] {
      ApplySound(s, steps[0]);
      RunSound(Apply(s, steps[0]), steps[1..]);
    }
  }

  // -------- what follows, for every interleaving --------

  /** At any moment each source has at most one live socket, and at most one handler. */
  lemma OneSocketPerSource(steps: seq<Step>, j: Socket, k: Socket)
    requires var s := Run(INITIAL, steps); (j in s.open && k in s.open) || (j in s.handlers && k in s.handlers)
    ensures var s := Run(INITIAL, steps);
            j in s.openedFor && k in s.openedFor && (s.openedFor[j].src == s.openedFor[k].src ==> j == k)
  {
    hide Run;
    RunSound(INITIAL, steps);
  }

  /** When a handler removes its source's map entry, that entry holds the handler's own socket. */
  lemma HandlerDeletesItsOwn(steps: seq<Step>, k: Socket)
    requires var s := Run(INITIAL, steps); k in s.handlers
    ensures var s := Run(INITIAL, steps);
            var src := s.handlers[k].packet.src;
            && src in s.cache && s.cache[src] == k
            && forall other :: other in s.cache && other != src ==> s.cache[other] != k
  {
    hide Run;
    RunSound(INITIAL, steps);
  }

  /**
   An answer reaches a source only through a socket opened for a packet of that source, and, whenever the sender
   is known and the target has a printed form, only from the target of that packet.
   */
  lemma AnswersGoHome(steps: seq<Step>, i: nat)
    requires i < |Run(INITIAL, steps).answers|
    ensures var s := Run(INITIAL, steps);
            var a := s.answers[i];
            && a.socket in s.openedFor && a.to == s.openedFor[a.socket].src
            && (a.from == None || s.openedFor[a.socket].target == "" || a.from.value == s.openedFor[a.socket].target)
  {
    hide Run;
    RunSound(INITIAL, steps);
    assert Run(INITIAL, steps).answers[i] in Run(INITIAL, steps).answers;
  }

  /** A packet leaves only through a socket opened for its own source. */
  lemma PacketsLeaveByTheirOwn(steps: seq<Step>, i: nat)
    requires i < |Run(INITIAL, steps).fates| && Run(INITIAL, steps).fates[i].Sent?
    ensures var s := Run(INITIAL, steps);
            s.fates[i].socket in s.openedFor && s.openedFor[s.fates[i].socket].src == s.fates[i].packet.src
  {
    hide Run;
    RunSound(INITIAL, steps);
    assert Run(INITIAL, steps).fates[i] in Run(INITIAL, steps).fates;
  }

  /**
   No packet is lost, repeated or reordered: those received are those whose fate is sealed, in order, and then the one
   in hand; and one is dropped only when no socket could be opened for it, or because its socket has been closed.
   */
  lemma NothingLost(steps: seq<Step>)
    ensures var s := Run(INITIAL, steps);
            && |s.fates| <= |s.received| <= |s.fates| + 1
            && (forall i :: 0 <= i < |s.fates| ==> s.received[i] == s.fates[i].packet)
            && (s.main.Waiting? || s.main.Stopped? ==> |s.received| == |s.fates|)
            && (forall i :: 0 <= i < |s.fates| && s.fates[i].TooLate? ==> s.fates[i].socket !in s.open)
  {
    hide Run;
    RunSound(INITIAL, steps);
    var s := Run(INITIAL, steps);
    assert forall i :: 0 <= i < |s.fates| ==> s.fates[i] in s.fates;
  }

  /** Every packet dropped has a reason among the steps so far, and so has, until the closing pass, every socket closed. */
  ghost predicate Excused(s: State, steps: seq<Step>) {
    && (forall x :: x in s.fates && x.Unopened? ==> MainOpen(false) in steps)
    && (forall x :: x in s.fates && x.TooLate? ==> HandlerClose(x.socket) in steps)
    && (s.main.Closing? || s.main.Stopped? || forall k :: k in s.openedFor && k !in s.open ==> HandlerClose(k) in steps)
  }

  lemma ApplyExcused(s: State, steps: seq<Step>, step: Step)
    requires Sound(s) && Excused(s, steps)
    ensures Excused(Apply(s, step), steps + [step])
  {
    hide HandlersSound, CacheSound, ClosingSound, HistorySound;
    assert step in steps + [step] && forall x :: x in steps ==> x in steps + [step];
  }

  /** A packet is dropped only after opening a socket has failed, or after the handler has closed the packet's own socket. */
  lemma {:induction false} DroppedOnlyFor(steps: seq<Step>)
    ensures Excused(Run(INITIAL, steps), steps)
    decreases |steps|
  {
    hide Apply;
    if steps == [] {
    } else {
      var n := |steps| - 1;
      DroppedOnlyFor(steps[..n]);
      RunSound(INITIAL, steps[..n]);
      RunJoins(INITIAL, steps[..n], [steps[n]]);
      assert steps[..n] + [steps[n]] == steps;
      ApplyExcused(Run(INITIAL, steps[..n]), steps[..n], steps[n]);
    }
  }

  // -------- what does happen --------

  /** A packet of a source with an open socket goes out through that socket. */
  lemma KnownSourceSends(s: State, packet: Packet)
    requires s.main.Waiting? && packet.src in s.cache && s.cache[packet.src] in s.open
    ensures var t := Run(s, [MainReceive(packet, true), MainLookup, MainSend]);
            t.main.Waiting? && t.fates == s.fates + [Sent(s.cache[packet.src], packet)] && t.next == s.next
  {
    var s1 := Apply(s, MainReceive(packet, true));
    var s2 := Apply(s1, MainLookup);
    RunThree(s, MainReceive(packet, true), MainLookup, MainSend);
  }

  /** A packet of a new source goes out through a new socket, which is its source's from then on, with a handler. */
  lemma NewSourceSends(s: State, packet: Packet)
    requires Sound(s) && s.main.Waiting? && packet.src !in s.cache
    ensures var t := Run(s, [MainReceive(packet, true), MainLookup, MainOpen(true)] + [MainStore, MainSpawn, MainSend]);
            && t.main.Waiting? && t.fates == s.fates + [Sent(s.next, packet)] && t.next == s.next + 1
            && t.cache == s.cache[packet.src := s.next] && s.next in t.open
            && s.next in t.handlers && t.handlers[s.next] == Handler(packet, Reading)
  {
    RunJoins(s, [MainReceive(packet, true), MainLookup, MainOpen(true)], [MainStore, MainSpawn, MainSend]);
    RunThree(s, MainReceive(packet, true), MainLookup, MainOpen(true));
    var t := Run(s, [MainReceive(packet, true), MainLookup, MainOpen(true)]);
    RunThree(t, MainStore, MainSpawn, MainSend);
  }

  /** An answer is carried back exactly if it comes from the packet's target, or from nobody known, and can be written. */
  lemma AnswerCarried(s: State, k: Socket, from: Option<string>, ok: bool)
    requires k in s.handlers && s.handlers[k].pc.Reading? && k in s.open
    ensures var packet := s.handlers[k].packet;
            var t := Apply(s, HandlerReceive(k, from, ok));
            if ok && (packet.target == "" || from == None || from.value == packet.target)
            then t == s.(answers := s.answers + [Answer(k, from, packet.src)]) else t == s
  {
  }

  /** A handler that ends closes its socket and forgets its source; the next packet of that source is new again. */
  lemma HandlerEnds(s: State, k: Socket)
    requires Sound(s) && k in s.handlers && s.handlers[k].pc.Reading?
    ensures var t := Run(s, [HandlerClose(k), HandlerDelete(k)]);
            && k !in t.open && k !in t.handlers && s.handlers[k].packet.src !in t.cache
            && t.open == s.open - {k} && t.handlers == s.handlers - {k} && t.cache == s.cache - {s.handlers[k].packet.src}
  {
    RunTwo(s, HandlerClose(k), HandlerDelete(k));
  }

  /** Once reading fails, the main loop can go over the map, close what it finds and stop. */
  lemma CanStop(s: State) returns (steps: seq<Step>)
    requires s.main.Waiting?
    ensures Run(s, steps).main.Stopped?
  {
    var s1 := Apply(s, MainFail);
    var rest := CanCollect(s1);
    steps := [MainFail] + rest;
  }

  lemma {:induction false} CanCollect(s: State) returns (steps: seq<Step>)
    requires s.main.Collecting?
    ensures Run(s, steps).main.Stopped?
    decreases |s.main.todo|
  {
    if s.main.todo == {} {
      var rest := CanClose(Apply(s, MainCollected));
      steps := [MainCollected] + rest;
    } else {
      var src :| src in s.main.todo;
      var rest := CanCollect(Apply(s, MainCollect(src)));
      steps := [MainCollect(src)] + rest;
    }
  }

  lemma {:induction false} CanClose(s: State) returns (steps: seq<Step>)
    requires s.main.Closing?
    ensures Run(s, steps).main.Stopped?
    decreases |s.main.conns|
  {
    if s.main.conns == {} {
      steps := [MainStop];
      assert Run(Apply(s, MainStop), []) == Apply(s, MainStop);
    } else {
      var k :| k in s.main.conns;
      var rest := CanClose(Apply(s, MainClose(k)));
      steps := [MainClose(k)] + rest;
    }
  }

  lemma RunTwo(s: State, a: Step, b: Step)
    ensures Run(s, [a, b]) == Apply(Apply(s, a), b)
  {
    hide Apply;
    assert [a, b][1..] == [b] && [b][1..] == [];
    assert Run(Apply(s, a), [b]) == Run(Apply(Apply(s, a), b), []);
  }

  lemma RunThree(s: State, a: Step, b: Step, c: Step)
    ensures Run(s, [a, b, c]) == Apply(Apply(Apply(s, a), b), c)
  {
    hide Apply;
    assert [a, b, c][1..] == [b, c];
    RunTwo(Apply(s, a), b, c);
  }

  lemma {:induction false} RunJoins(s: State, a: seq<Step>, b: seq<Step>)
    ensures Run(s, a + b) == Run(Run(s, a), b)
    decreases |a|
  {
    hide Apply;
    if a == [] {
      assert a + b == b;
    } else {
      assert (a + b)[1..] == a[1..] + b;
      RunJoins(Apply(s, a[0]), a[1..], b);
    }
  }

  /** Once the main loop has stopped no socket is open, and once the handlers are done too the map is empty. */
  lemma NothingLeaks(steps: seq<Step>)
    requires Run(INITIAL, steps).main.Stopped?
    ensures Run(INITIAL, steps).open == {}
    ensures Run(INITIAL, steps).handlers == map[] ==> Run(INITIAL, steps).cache == map[]
  {
    hide Run;
    RunSound(INITIAL, steps);
  }
}
