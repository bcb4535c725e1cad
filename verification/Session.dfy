/**
 * The whole life of a client and its worker as a state machine over bytes: calls, partial sends
 * and receives on both sides, services, timeouts, crashes and reconnects, in any order. The
 * machine is stated once for any pair of codecs that frame their messages, and instantiated for
 * the C++ client with the C++ worker and for the Python client with the Python worker.
 */
module Session {
  import opened Bytes
  import opened Protocol
  import opened Decoders
  import opened Optional
  import opened Replies

  // The worker's request decoder and what it accepts; what clients send, accepted or not; the
  // client's response reader and what it keeps of a reply.
  datatype Codec<!R> = Codec(
    decode: seq<Byte> -> Read<Message>,
    accepts: Message -> bool,
    sends: Message -> bool,
    readReply: (U64, seq<Byte>) -> Read<R>,
    view: Reply -> R)

  ghost predicate Framed<R(!new)>(k: Codec<R>) {
    && (forall bs, m, rest :: k.decode(bs) == Done(m, rest) <==> bs == WireThen(m, rest) && k.accepts(m))
    && (forall m, next, m', next' :: k.sends(m) && k.accepts(m') && WireThen(m, next) == WireThen(m', next') ==>
          m == m' && next == next')
    && (forall id, r, padding, next :: ReplyFits(r) ==>
          k.readReply(id, ReplyThen(id, r, padding, next)) == Done(k.view(r), next))
    && (forall id, bs, more :: k.readReply(id, bs).Done? ==>
          k.readReply(id, bs + more) == Done(k.readReply(id, bs).value, k.readReply(id, bs).rest + more))
    && (forall id :: !k.readReply(id, []).Done?)
  }

  datatype Service = Service(message: Message, reply: Reply)

  // A call that returned: what it sent, what it got, and the services done before it and by then.
  datatype Return<R> = Return(message: Message, answer: R, before: nat, after: nat)

  // Bytes on their way: still to be sent, sent, read by the worker; and back.
  // `up` is false once the worker has crashed. `served` remembers the reply to the current call.
  datatype Conn = Conn(toSend: seq<Byte>, toWorker: seq<Byte>, workerIn: seq<Byte>,
                       workerOut: seq<Byte>, toClient: seq<Byte>, clientIn: seq<Byte>,
                       up: bool, served: Option<(Reply, U32)>)
  {
    ghost predicate Quiet() {
      && toSend == [] && toWorker == [] && workerIn == []
      && workerOut == [] && toClient == [] && clientIn == []
    }
  }

  const FRESH: Conn := Conn([], [], [], [], [], [], true, None)

  datatype Phase = Idle | Calling(message: Message, before: nat)

  datatype State<R> = State(conn: Option<Conn>, phase: Phase, services: seq<Service>, returned: seq<Return<R>>)

  datatype Step =
    | Connect                                 // the client opens a new connection
    | Call(message: Message)                  // a call starts writing its request
    | Send(n: nat)                            // part of the request enters the stream
    | WorkerReceive(n: nat)                   // the worker reads part of the stream
    | Serve(reply: Reply, padding: U32)       // a whole request has arrived and is answered
    | WorkerSend(n: nat)                      // part of the response enters the stream
    | Receive(n: nat)                         // the client reads part of the stream
    | ReturnReply                             // a whole response has arrived; the call returns it
    | Fail                                    // timeout, error or refused response: the client closes
    | Crash                                   // the worker exits or drops the connection
    | ServeOther(service: Service)            // a service for a connection given up earlier

  ghost predicate Next<R>(k: Codec<R>, s: State<R>, step: Step, s': State<R>) {
    match step
    case Connect =>
      s.conn.None? && s' == s.(conn := Some(FRESH))
    case Call(m) =>
      && s.conn.Some? && s.phase.Idle? && k.sends(m)
      && s' == s.(phase := Calling(m, |s.services|),
                  conn := Some(s.conn.value.(toSend := Wire(m), served := None)))
    case Send(n) =>
      && s.conn.Some? && n <= |s.conn.value.toSend|
      && var c := s.conn.value;
      && s' == s.(conn := Some(c.(toSend := c.toSend[n..], toWorker := c.toWorker + c.toSend[..n])))
    case WorkerReceive(n) =>
      && s.conn.Some? && s.conn.value.up && n <= |s.conn.value.toWorker|
      && var c := s.conn.value;
      && s' == s.(conn := Some(c.(toWorker := c.toWorker[n..], workerIn := c.workerIn + c.toWorker[..n])))
    case Serve(reply, padding) =>
      && s.conn.Some? && s.conn.value.up && ReplyFits(reply)
      && var c := s.conn.value;
      && k.decode(c.workerIn).Done?
      && var Done(m, rest) := k.decode(c.workerIn);
      && s' == s.(services := s.services + [Service(m, reply)],
                  conn := Some(c.(workerIn := rest, served := Some((reply, padding)),
                                  workerOut := c.workerOut + ReplyThen(m.header.requestId, reply, padding, []))))
    case WorkerSend(n) =>
      && s.conn.Some? && s.conn.value.up && n <= |s.conn.value.workerOut|
      && var c := s.conn.value;
      && s' == s.(conn := Some(c.(workerOut := c.workerOut[n..], toClient := c.toClient + c.workerOut[..n])))
    case Receive(n) =>
      && s.conn.Some? && s.phase.Calling? && n <= |s.conn.value.toClient|
      && var c := s.conn.value;
      && s' == s.(conn := Some(c.(toClient := c.toClient[n..], clientIn := c.clientIn + c.toClient[..n])))
    case ReturnReply =>
      && s.conn.Some? && s.phase.Calling?
      && var c, m := s.conn.value, s.phase.message;
      && k.readReply(m.header.requestId, c.clientIn).Done?
      && var Done(answer, rest) := k.readReply(m.header.requestId, c.clientIn);
      && s' == s.(phase := Idle, conn := Some(c.(clientIn := rest)),
                  returned := s.returned + [Return(m, answer, s.phase.before, |s.services|)])
    case Fail =>
      s.conn.Some? && s' == s.(conn := None, phase := Idle)
    case Crash =>
      && s.conn.Some?
      && s' == s.(conn := Some(s.conn.value.(up := false, workerOut := [])))
    case ServeOther(service) =>
      s' == s.(services := s.services + [service])
  }

  ghost predicate Init<R>(s: State<R>) {
    s.conn.None? && s.phase.Idle? && s.services == [] && s.returned == []
  }

  // ---- The invariant -------------------------------------------------------------------

  // Before the service: the request is spread over the three places on its way to the worker.
  ghost predicate Waiting(c: Conn, m: Message) {
    && c.served.None? && c.workerOut == [] && c.toClient == [] && c.clientIn == []
    && c.workerIn + (c.toWorker + c.toSend) == Wire(m)
  }

  // After it: nothing of the request is left, and the response, or what a crash left of it, is
  // spread over the three places on its way back.
  ghost predicate Answering(c: Conn, m: Message) {
    && c.served.Some? && ReplyFits(c.served.value.0)
    && c.toSend == [] && c.toWorker == [] && c.workerIn == []
    && var (reply, padding) := c.served.value;
    && c.clientIn + (c.toClient + c.workerOut) <= ReplyThen(m.header.requestId, reply, padding, [])
  }

  ghost predicate Inv<R>(k: Codec<R>, s: State<R>) {
    && (s.conn.None? ==> s.phase.Idle?)
    && (s.conn.Some? && s.phase.Idle? ==> s.conn.value.Quiet())
    && (s.conn.Some? && s.phase.Calling? ==>
          var c, m := s.conn.value, s.phase.message;
          && k.sends(m) && s.phase.before <= |s.services|
          && (Waiting(c, m) || (Answering(c, m) && k.accepts(m) && Served(s.services, m, c.served.value.0, s.phase.before, |s.services|))))
    && AnswersOwn(k, s)
  }

  // Some service between the two points in time answered this very message with this reply.
  ghost predicate Served(services: seq<Service>, m: Message, reply: Reply, before: nat, after: nat) {
    exists j :: before <= j < after <= |services| && services[j] == Service(m, reply)
  }

  /** Every answer that was returned was computed from the message its own call sent, during that call; a refused message gets none. */
  ghost predicate AnswersOwn<R>(k: Codec<R>, s: State<R>) {
    forall i :: 0 <= i < |s.returned| ==> AnswersCall(k, s.services, s.returned[i])
  }

  ghost predicate AnswersCall<R>(k: Codec<R>, services: seq<Service>, r: Return<R>) {
    k.accepts(r.message) && exists reply :: k.view(reply) == r.answer && Served(services, r.message, reply, r.before, r.after)
  }

  lemma RequestNeedsAllBytes<R(!new)>(k: Codec<R>, m: Message, bs: seq<Byte>, missing: seq<Byte>)
    requires Framed(k) && k.sends(m) && bs + missing == Wire(m) && k.decode(bs).Done?
    ensures k.accepts(m)
    ensures k.decode(bs) == Done(m, []) && missing == []
  {
    hide WireThen, Wire;
    var Done(m', rest) := k.decode(bs);
    assert bs == WireThen(m', rest) && k.accepts(m');
    WireThenIsConcat(m', rest);
    WireThenIsConcat(m', rest + missing);
    assert Wire(m') + rest + missing == Wire(m') + (rest + missing);
    WireThenIsConcat(m, []);
    assert Wire(m) + [] == Wire(m);
    assert WireThen(m, []) == WireThen(m', rest + missing);
  }

  lemma NothingToDecode<R(!new)>(k: Codec<R>)
    requires Framed(k)
    ensures !k.decode([]).Done?
  {
    hide PayloadThen;
    assert forall m, rest :: |WireThen(m, rest)| >= REQUEST_SIZE;
  }

  lemma ResponseNeedsAllBytes<R(!new)>(k: Codec<R>, id: U64, r: Reply, padding: U32, bs: seq<Byte>, missing: seq<Byte>)
    requires Framed(k) && ReplyFits(r) && k.readReply(id, bs).Done?
    requires bs + missing == ReplyThen(id, r, padding, [])
    ensures k.readReply(id, bs) == Done(k.view(r), []) && missing == []
  {
    hide ReplyThen;
    assert k.readReply(id, bs + missing) == Done(k.view(r), []);
  }

  lemma ServedLater(services: seq<Service>, more: seq<Service>, m: Message, reply: Reply, before: nat, after: nat)
    requires Served(services, m, reply, before, after)
    ensures Served(services + more, m, reply, before, after)
    ensures Served(services + more, m, reply, before, |services + more|)
  {
    var j :| before <= j < after <= |services| && services[j] == Service(m, reply);
    assert (services + more)[j] == Service(m, reply);
  }

  lemma AnswersStay<R>(k: Codec<R>, services: seq<Service>, more: seq<Service>, r: Return<R>)
    requires AnswersCall(k, services, r)
    ensures AnswersCall(k, services + more, r)
  {
    var reply :| k.view(reply) == r.answer && Served(services, r.message, reply, r.before, r.after);
    ServedLater(services, more, r.message, reply, r.before, r.after);
  }

  lemma ServeKeepsInv<R(!new)>(k: Codec<R>, s: State<R>, step: Step, s': State<R>)
    requires Framed(k) && Inv(k, s) && Next(k, s, step, s') && step.Serve?
    ensures Inv(k, s')
  {
    hide WireThen, Wire, ReplyThen;
    var c := s.conn.value;
    if s.phase.Idle? || Answering(c, s.phase.message) {
      NothingToDecode(k);
      assert false;
    } else {
      var m := s.phase.message;
      RequestNeedsAllBytes(k, m, c.workerIn, c.toWorker + c.toSend);
      var c' := s'.conn.value;
      var out := ReplyThen(m.header.requestId, step.reply, step.padding, []);
      assert [] + out == out;
      assert Answering(c', m);
      assert s'.services[|s.services|] == Service(m, step.reply);
      AnswersOwnStays(k, s, s', [Service(m, step.reply)]);
    }
  }

  lemma AnswersOwnStays<R>(k: Codec<R>, s: State<R>, s': State<R>, more: seq<Service>)
    requires AnswersOwn(k, s) && s'.services == s.services + more && s'.returned == s.returned
    ensures AnswersOwn(k, s')
  {
    forall i | 0 <= i < |s'.returned|
      ensures AnswersCall(k, s'.services, s'.returned[i])
    {
      AnswersStay(k, s.services, more, s.returned[i]);
    }
  }

  lemma ReturnKeepsInv<R(!new)>(k: Codec<R>, s: State<R>, step: Step, s': State<R>)
    requires Framed(k) && Inv(k, s) && Next(k, s, step, s') && step.ReturnReply?
    ensures Inv(k, s')
  {
    hide WireThen, Wire, ReplyThen;
    var c, m := s.conn.value, s.phase.message;
    var (reply, padding) := c.served.value;
    var whole := ReplyThen(m.header.requestId, reply, padding, []);
    var here := c.clientIn + (c.toClient + c.workerOut);
    var missing := whole[|c.clientIn|..];
    assert c.clientIn + missing == whole;
    ResponseNeedsAllBytes(k, m.header.requestId, reply, padding, c.clientIn, missing);
    assert c.toClient == [] && c.workerOut == [];
    var r := Return(m, k.view(reply), s.phase.before, |s.services|);
    assert AnswersCall(k, s.services, r);
    assert s'.returned == s.returned + [r];
  }

  lemma AnswersOwnKept<R>(k: Codec<R>, s: State<R>, s': State<R>)
    requires AnswersOwn(k, s) && s'.services == s.services && s'.returned == s.returned
    ensures AnswersOwn(k, s')
  {
  }

  // Moving bytes along keeps what is on the way.
  lemma Moved(a: seq<Byte>, b: seq<Byte>, n: nat)
    requires n <= |b|
    ensures (a + b[..n]) + b[n..] == a + b
  {
  }

  lemma MovedOn(a: seq<Byte>, b: seq<Byte>, c: seq<Byte>, n: nat)
    requires n <= |b|
    ensures (a + b[..n]) + (b[n..] + c) == a + (b + c)
    ensures c + ((a + b[..n]) + b[n..]) == c + (a + b)
  {
    Moved(a, b, n);
  }

  lemma RequestBytesKeepInv<R(!new)>(k: Codec<R>, s: State<R>, step: Step, s': State<R>)
    requires Inv(k, s) && Next(k, s, step, s') && (step.Send? || step.WorkerReceive?)
    ensures Inv(k, s')
  {
    hide WireThen, Wire, ReplyThen, Served, AnswersOwn;
    var c, c' := s.conn.value, s'.conn.value;
    if step.Send? {
      MovedOn(c.toWorker, c.toSend, c.workerIn, step.n);
    } else {
      MovedOn(c.workerIn, c.toWorker, c.toSend, step.n);
    }
    AnswersOwnKept(k, s, s');
    assert c'.workerIn + (c'.toWorker + c'.toSend) == c.workerIn + (c.toWorker + c.toSend);
  }

  lemma ResponseBytesKeepInv<R(!new)>(k: Codec<R>, s: State<R>, step: Step, s': State<R>)
    requires Inv(k, s) && Next(k, s, step, s') && (step.WorkerSend? || step.Receive?)
    ensures Inv(k, s')
  {
    hide WireThen, Wire, ReplyThen, Served, AnswersOwn;
    var c, c' := s.conn.value, s'.conn.value;
    if step.WorkerSend? {
      MovedOn(c.toClient, c.workerOut, c.clientIn, step.n);
    } else {
      MovedOn(c.clientIn, c.toClient, c.workerOut, step.n);
    }
    AnswersOwnKept(k, s, s');
    assert c'.clientIn + (c'.toClient + c'.workerOut) == c.clientIn + (c.toClient + c.workerOut);
  }

  lemma StepKeepsInv<R(!new)>(k: Codec<R>, s: State<R>, step: Step, s': State<R>)
    requires Framed(k) && Inv(k, s) && Next(k, s, step, s')
    ensures Inv(k, s')
  {
    hide WireThen, Wire, ReplyThen;
    match step {
      case Serve(_, _) => ServeKeepsInv(k, s, step, s');
      case ReturnReply => ReturnKeepsInv(k, s, step, s');
      case Send(_) => RequestBytesKeepInv(k, s, step, s');
      case WorkerReceive(_) => RequestBytesKeepInv(k, s, step, s');
      case WorkerSend(_) => ResponseBytesKeepInv(k, s, step, s');
      case Receive(_) => ResponseBytesKeepInv(k, s, step, s');
      case Call(m) => assert [] + ([] + Wire(m)) == Wire(m);
      case ServeOther(service) =>
        AnswersOwnStays(k, s, s', [service]);
        if s.phase.Calling? && s.conn.value.served.Some?
           && Served(s.services, s.phase.message, s.conn.value.served.value.0, s.phase.before, |s.services|)
        {
          ServedLater(s.services, [service], s.phase.message, s.conn.value.served.value.0, s.phase.before, |s.services|);
        }
      case Crash =>
      case Connect =>
      case Fail =>
    }
  }

  // ---- Runs ----------------------------------------------------------------------------

  ghost predicate Run<R(!new)>(k: Codec<R>, states: seq<State<R>>, steps: seq<Step>) {
    && |states| == |steps| + 1 && Init(states[0])
    && forall i :: 0 <= i < |steps| ==> Next(k, states[i], steps[i], states[i + 1])
  }

  lemma {:induction false} RunKeepsInv<R(!new)>(k: Codec<R>, states: seq<State<R>>, steps: seq<Step>, i: nat)
    requires Framed(k) && Run(k, states, steps) && i < |states|
    ensures Inv(k, states[i])
  {
    if i > 0 {
      RunKeepsInv(k, states, steps, i - 1);
      StepKeepsInv(k, states[i - 1], steps[i - 1], states[i]);
    }
  }

  /**
   * Session safety. In every state of every run, each returned answer was computed, during its
   * own call, from the message that call sent, which the worker accepts; and a call that starts on an open connection
   * finds nothing in either direction.
   */
  lemma SessionSafety<R(!new)>(k: Codec<R>, states: seq<State<R>>, steps: seq<Step>)
    requires Framed(k) && Run(k, states, steps)
    ensures forall i :: 0 <= i < |states| ==> AnswersOwn(k, states[i])
    ensures forall i :: 0 <= i < |steps| && steps[i].Call? ==> states[i].conn.Some? && states[i].conn.value.Quiet()
  {
    forall i | 0 <= i < |states|
      ensures Inv(k, states[i])
    {
      RunKeepsInv(k, states, steps, i);
    }
    forall i | 0 <= i < |steps| && steps[i].Call?
      ensures states[i].conn.Some? && states[i].conn.value.Quiet()
    {
      assert Next(k, states[i], steps[i], states[i + 1]);
    }
  }

  // ---- Availability --------------------------------------------------------------------

  /** `steps` lead from `s` through `states` to the last of them. */
  ghost predicate Leads<R(!new)>(k: Codec<R>, s: State<R>, states: seq<State<R>>, steps: seq<Step>) {
    && |states| == |steps| + 1 && states[0] == s
    && forall i :: 0 <= i < |steps| ==> Next(k, states[i], steps[i], states[i + 1])
  }

  lemma LeadsOn<R(!new)>(k: Codec<R>, s: State<R>, states: seq<State<R>>, steps: seq<Step>, step: Step, s': State<R>)
    requires Leads(k, s, states, steps) && Next(k, states[|steps|], step, s')
    ensures Leads(k, s, states + [s'], steps + [step])
  {
    hide Next;
    var states', steps' := states + [s'], steps + [step];
    forall i | 0 <= i < |steps'| ensures Next(k, states'[i], steps'[i], states'[i + 1]) {
      if i < |steps| { assert Next(k, states[i], steps[i], states[i + 1]); }
    }
  }

  // A new connection, whatever the session has been through.
  lemma CanReconnect<R(!new)>(k: Codec<R>, s: State<R>) returns (states: seq<State<R>>, steps: seq<Step>)
    requires Inv(k, s)
    ensures Leads(k, s, states, steps)
    ensures states[|steps|] == s.(conn := Some(FRESH), phase := Idle)
  {
    var closed := s.(conn := None, phase := Idle);
    var open := closed.(conn := Some(FRESH));
    if s.conn.Some? {
      states, steps := [s, closed], [Fail];
    } else {
      states, steps := [s], [];
    }
    LeadsOn(k, s, states, steps, Connect, open);
    states, steps := states + [open], steps + [Connect];
  }

  // An open connection with a live worker, between calls.
  ghost predicate Ready<R>(s: State<R>) {
    s.conn.Some? && s.phase.Idle? && s.conn.value.Quiet() && s.conn.value.up
  }

  // The request crosses to the worker in one piece.
  lemma CanDeliver<R(!new)>(k: Codec<R>, s: State<R>, m: Message) returns (states: seq<State<R>>, steps: seq<Step>)
    requires Ready(s) && k.sends(m)
    ensures Leads(k, s, states, steps)
    ensures states[|steps|] == s.(phase := Calling(m, |s.services|), conn := Some(FRESH.(workerIn := Wire(m))))
  {
    hide Wire;
    var bs := Wire(m);
    var called := s.(phase := Calling(m, |s.services|), conn := Some(FRESH.(toSend := bs)));
    var sent := called.(conn := Some(FRESH.(toWorker := bs)));
    var arrived := called.(conn := Some(FRESH.(workerIn := bs)));
    assert bs[..|bs|] == bs && bs[|bs|..] == [] && [] + bs == bs;
    states, steps := [s, called, sent, arrived], [Call(m), Send(|bs|), WorkerReceive(|bs|)];
    assert Next(k, s, steps[0], called) && Next(k, called, steps[1], sent) && Next(k, sent, steps[2], arrived);
  }

  // It is served, and the response enters the stream in one piece.
  lemma CanServe<R(!new)>(k: Codec<R>, s: State<R>, m: Message, before: nat, reply: Reply, padding: U32)
      returns (states: seq<State<R>>, steps: seq<Step>)
    requires Framed(k) && k.accepts(m) && ReplyFits(reply)
    requires s.phase == Calling(m, before) && s.conn == Some(FRESH.(workerIn := Wire(m)))
    ensures Leads(k, s, states, steps)
    ensures var bs := ReplyThen(m.header.requestId, reply, padding, []);
            states[|steps|] == s.(services := s.services + [Service(m, reply)],
                                  conn := Some(FRESH.(served := Some((reply, padding)), toClient := bs)))
  {
    hide Wire, WireThen, ReplyThen, ReplyFits;
    WireThenIsConcat(m, []);
    assert Wire(m) + [] == Wire(m);
    assert k.decode(Wire(m)) == Done(m, []);
    hide Framed;
    var bs := ReplyThen(m.header.requestId, reply, padding, []);
    var done := FRESH.(served := Some((reply, padding)));
    var served := s.(services := s.services + [Service(m, reply)], conn := Some(done.(workerOut := bs)));
    var sent := served.(conn := Some(done.(toClient := bs)));
    assert bs[..|bs|] == bs && bs[|bs|..] == [] && [] + bs == bs;
    states, steps := [s, served, sent], [Serve(reply, padding), WorkerSend(|bs|)];
    assert Next(k, s, steps[0], served) && Next(k, served, steps[1], sent);
  }

  // The client reads the response and returns it.
  lemma CanReturn<R(!new)>(k: Codec<R>, s: State<R>, m: Message, before: nat, reply: Reply, padding: U32)
      returns (states: seq<State<R>>, steps: seq<Step>)
    requires Framed(k) && ReplyFits(reply) && s.phase == Calling(m, before)
    requires s.conn == Some(FRESH.(served := Some((reply, padding)),
                                   toClient := ReplyThen(m.header.requestId, reply, padding, [])))
    ensures Leads(k, s, states, steps) && Ready(states[|steps|])
    ensures states[|steps|].returned == s.returned + [Return(m, k.view(reply), before, |s.services|)]
  {
    hide ReplyThen, ReplyFits;
    var id := m.header.requestId;
    var bs := ReplyThen(id, reply, padding, []);
    assert k.readReply(id, bs) == Done(k.view(reply), []);
    hide Framed;
    var done := FRESH.(served := Some((reply, padding)));
    var arrived := s.(conn := Some(done.(clientIn := bs)));
    var back := arrived.(phase := Idle, conn := Some(done),
                         returned := s.returned + [Return(m, k.view(reply), before, |s.services|)]);
    assert bs[..|bs|] == bs && bs[|bs|..] == [] && [] + bs == bs;
    states, steps := [s, arrived, back], [Receive(|bs|), ReturnReply];
    assert Next(k, s, steps[0], arrived) && Next(k, arrived, steps[1], back);
  }

  lemma LeadsFurther<R(!new)>(k: Codec<R>, s: State<R>, states: seq<State<R>>, steps: seq<Step>,
                              states': seq<State<R>>, steps': seq<Step>)
    requires Leads(k, s, states, steps) && Leads(k, states[|steps|], states', steps')
    ensures |states'| == |steps'| + 1 && Leads(k, s, states + states'[1..], steps + steps')
    ensures (states + states'[1..])[|steps + steps'|] == states'[|steps'|]
  {
    hide Next;
    var all, allSteps := states + states'[1..], steps + steps';
    forall i | 0 <= i < |allSteps| ensures Next(k, all[i], allSteps[i], all[i + 1]) {
      if i < |steps| {
        assert Next(k, states[i], steps[i], states[i + 1]);
      } else {
        var j := i - |steps|;
        assert Next(k, states'[j], steps'[j], states'[j + 1]);
      }
    }
  }

  // All of that on a fresh connection.
  lemma CanAnswer<R(!new)>(k: Codec<R>, s: State<R>, m: Message, reply: Reply, padding: U32)
      returns (states: seq<State<R>>, steps: seq<Step>)
    requires Framed(k) && k.sends(m) && k.accepts(m) && ReplyFits(reply)
    requires Ready(s)
    ensures Leads(k, s, states, steps) && |states| == |steps| + 1 && Ready(states[|steps|])
    ensures states[|steps|].returned == s.returned + [Return(m, k.view(reply), |s.services|, |s.services| + 1)]
  {
    hide Next, Framed, Wire, Leads, ReplyThen, ReplyFits;
    states, steps := CanDeliver(k, s, m);
    LeadsShape(k, s, states, steps);
    var states', steps' := CanServe(k, states[|steps|], m, |s.services|, reply, padding);
    LeadsShape(k, states[|steps|], states', steps');
    var states'', steps'' := CanReturn(k, states'[|steps'|], m, |s.services|, reply, padding);
    LeadsFurther(k, states[|steps|], states', steps', states'', steps'');
    states', steps' := states' + states''[1..], steps' + steps'';
    LeadsFurther(k, s, states, steps, states', steps');
    states, steps := states + states'[1..], steps + steps';
    LeadsShape(k, s, states, steps);
  }

  /**
   * Availability. From every state of every run, crashed, timed out or in mid-call, every
   * accepted message can still be sent and answered with any reply that fits.
   */
  lemma AnswerStaysReachable<R(!new)>(k: Codec<R>, run: seq<State<R>>, taken: seq<Step>, i: nat,
                                      m: Message, reply: Reply, padding: U32)
      returns (states: seq<State<R>>, steps: seq<Step>)
    requires Framed(k) && Run(k, run, taken) && i < |run|
    requires k.sends(m) && k.accepts(m) && ReplyFits(reply)
    ensures Leads(k, run[i], states, steps) && states[|steps|].phase.Idle?
    ensures var before := |run[i].services|;
            states[|steps|].returned == run[i].returned + [Return(m, k.view(reply), before, before + 1)]
  {
    var s := run[i];
    RunKeepsInv(k, run, taken, i);
    hide Next, Framed, Inv, Leads, Run, ReplyFits;
    states, steps := CanReconnect(k, s);
    LeadsShape(k, s, states, steps);
    var states', steps' := CanAnswer(k, states[|steps|], m, reply, padding);
    LeadsFurther(k, s, states, steps, states', steps');
    states, steps := states + states'[1..], steps + steps';
    LeadsShape(k, s, states, steps);
  }

  lemma LeadsShape<R(!new)>(k: Codec<R>, s: State<R>, states: seq<State<R>>, steps: seq<Step>)
    requires Leads(k, s, states, steps)
    ensures |states| == |steps| + 1 && states[0] == s
  {
  }

  // ---- The two pairs -------------------------------------------------------------------

  ghost function CppCodec(): Codec<Reply> {
    Codec(CppDecode, CppAccepts, Consistent, CppReadReply, r => r)
  }

  ghost function PyCodec(): Codec<PyAnswer> {
    Codec(PyDecode, PyAccepts, Consistent, PyReadReply, PyAnswerOf)
  }

  lemma CppCodecFramed()
    ensures Framed(CppCodec())
  {
    hide CppDecode, CppAccepts, Consistent, WireThen, CppReadReply, ReplyThen;
    forall bs, m, rest
      ensures CppDecode(bs) == Done(m, rest) <==> bs == WireThen(m, rest) && CppAccepts(m)
    {
      CppDecodeExact(bs, m, rest);
    }
    forall m, next, m', next' | Consistent(m) && CppAccepts(m') && WireThen(m, next) == WireThen(m', next')
      ensures m == m' && next == next'
    {
      AcceptedIsConsistent(m');
      MessagesPrefixFree(m, next, m', next');
    }
    forall id, r, padding, next | ReplyFits(r)
      ensures CppReadReply(id, ReplyThen(id, r, padding, next)) == Done(r, next)
    {
      ReplyReadBack(id, id, r, padding, next);
    }
    forall id, bs, more | CppReadReply(id, bs).Done?
      ensures CppReadReply(id, bs + more)
           == Done(CppReadReply(id, bs).value, CppReadReply(id, bs).rest + more)
    {
      ReplyExtends(id, bs, more);
    }
    forall id
      ensures !CppReadReply(id, []).Done?
    {
      NoEmptyReply(id);
    }
  }

  lemma PyCodecFramed()
    ensures Framed(PyCodec())
  {
    hide PyDecode, PyAccepts, Consistent, WireThen, PyReadReply, ReplyThen;
    forall bs, m, rest
      ensures PyDecode(bs) == Done(m, rest) <==> bs == WireThen(m, rest) && PyAccepts(m)
    {
      PyDecodeExact(bs, m, rest);
    }
    forall m, next, m', next' | Consistent(m) && PyAccepts(m') && WireThen(m, next) == WireThen(m', next')
      ensures m == m' && next == next'
    {
      AcceptedIsConsistent(m');
      MessagesPrefixFree(m, next, m', next');
    }
    forall id, r, padding, next | ReplyFits(r)
      ensures PyReadReply(id, ReplyThen(id, r, padding, next)) == Done(PyAnswerOf(r), next)
    {
      ReplyReadBack(id, id, r, padding, next);
    }
    forall id, bs, more | PyReadReply(id, bs).Done?
      ensures PyReadReply(id, bs + more)
           == Done(PyReadReply(id, bs).value, PyReadReply(id, bs).rest + more)
    {
      PyReplyExtends(id, bs, more);
    }
    forall id
      ensures !PyReadReply(id, []).Done?
    {
      NoEmptyReply(id);
    }
  }

  /** Session safety of the C++ client with the C++ worker. */
  lemma CppSessionSafety(states: seq<State<Reply>>, steps: seq<Step>)
    requires Run(CppCodec(), states, steps)
    ensures forall i :: 0 <= i < |states| ==> AnswersOwn(CppCodec(), states[i])
    ensures forall i :: 0 <= i < |steps| && steps[i].Call? ==> states[i].conn.Some? && states[i].conn.value.Quiet()
  {
    hide CppCodec;
    CppCodecFramed();
    SessionSafety(CppCodec(), states, steps);
  }

  /** Session safety of the Python client with the Python worker. */
  lemma PySessionSafety(states: seq<State<PyAnswer>>, steps: seq<Step>)
    requires Run(PyCodec(), states, steps)
    ensures forall i :: 0 <= i < |states| ==> AnswersOwn(PyCodec(), states[i])
    ensures forall i :: 0 <= i < |steps| && steps[i].Call? ==> states[i].conn.Some? && states[i].conn.value.Quiet()
  {
    hide PyCodec;
    PyCodecFramed();
    SessionSafety(PyCodec(), states, steps);
  }
}
