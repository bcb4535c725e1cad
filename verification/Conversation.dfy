/**
 * Client, worker and connection together: the client's calls and the worker's turns, run on the
 * two ends of one connection, are a run of the session's state machine.
 */
module Conversation {
  import opened Bytes
  import opened Protocol
  import opened Decoders
  import opened Optional
  import opened Requests
  import opened Replies
  import opened Channels
  import opened Workers
  import opened Clients
  import opened Session

  /** The bytes of the responses to a list of requests, first one in front. */
  function ToRead(backend: Backend, padding: U32, ts: seq<Tagged>): seq<Byte>
    requires forall i :: 0 <= i < |ts| ==> ReplyFits(BackendAnswer(backend, ts[i]))
  {
    if ts == [] then [] else
      ReplyThen(ts[0].id, BackendAnswer(backend, ts[0]), padding, ToRead(backend, padding, ts[1..]))
  }

  lemma ReplyThenIsConcat(id: U64, r: Reply, padding: U32, next: seq<Byte>)
    requires ReplyFits(r)
    ensures ReplyThen(id, r, padding, next) == ReplyThen(id, r, padding, []) + next
  {
    var h := ResponseHeaderBytes(ResponseHeaderFor(id, r, padding));
    assert h + (r.text + (r.error + (r.encoding + [])))  + next == h + (r.text + (r.error + (r.encoding + next)));
  }

  lemma {:induction false} ToReadConcat(backend: Backend, padding: U32, ts: seq<Tagged>, us: seq<Tagged>)
    requires forall i :: 0 <= i < |ts| ==> ReplyFits(BackendAnswer(backend, ts[i]))
    requires forall i :: 0 <= i < |us| ==> ReplyFits(BackendAnswer(backend, us[i]))
    ensures ToRead(backend, padding, ts + us) == ToRead(backend, padding, ts) + ToRead(backend, padding, us)
  {
    hide ReplyThen, BackendAnswer, ReplyFits;
    if ts == [] {
      assert ts + us == us;
    } else {
      assert (ts + us)[1..] == ts[1..] + us;
      ToReadConcat(backend, padding, ts[1..], us);
      var a, b := ToRead(backend, padding, ts[1..]), ToRead(backend, padding, us);
      ReplyThenIsConcat(ts[0].id, BackendAnswer(backend, ts[0]), padding, a + b);
      ReplyThenIsConcat(ts[0].id, BackendAnswer(backend, ts[0]), padding, a);
    }
  }

  /** What the worker writes is what the client reads. */
  lemma {:induction false} AnswersAreRead(backend: Backend, padding: U32, ts: seq<Tagged>)
    requires forall i :: 0 <= i < |ts| ==> ReplyFits(BackendAnswer(backend, ts[i]))
    ensures AnswersTo(backend, padding, ts) == ToRead(backend, padding, ts)
  {
    hide ReplyThen, BackendAnswer, ReplyFits;
    if ts != [] {
      var n := |ts| - 1;
      AnswersAreRead(backend, padding, ts[..n]);
      ToReadConcat(backend, padding, ts[..n], [ts[n]]);
      assert ts[..n] + [ts[n]] == ts;
      assert ToRead(backend, padding, [ts[n]][1..]) == [];
    }
  }

  // The client's side of one exchange.
  method CppCall(client: CppClient, near: Channel, t: Tagged, ghost reply: Reply, ghost padding: U32, ghost next: seq<Byte>)
      returns (a: Answer<Reply>)
    requires client.socket == near && client.nextRequestId == t.id
    requires CppSendable(t.request, client.limits) && ReplyFits(reply)
    requires near.inbound == ReplyThen(t.id, reply, padding, next) && Clean(near.schedule)
    modifies client, near
    ensures a == Answer.Answered(reply) && client.socket == near && client.nextRequestId == (t.id + 1) % 0x1_0000_0000_0000_0000
    ensures near.inbound == next && Clean(near.schedule)
    ensures near.outbound == old(near.outbound) + Wire(MessageOf(t))
  {
    hide CppReadReply, CppSendable, Wire, CppMessageOf, ReplyThen, ReplyFits;
    ReplyReadBack(t.id, t.id, reply, padding, next);
    a := client.Infer(t.request, None, t.padding);
  }

  // The worker's side.
  method CppTurn(far: Channel, backend: Backend, t: Tagged, padding: U32, ghost limits: Limits, ghost next: seq<Byte>)
    requires t.request.WellFormed() && CppSendable(t.request, limits) && ReplyFits(BackendAnswer(backend, t))
    requires far.inbound == WireThen(MessageOf(t), next) && Clean(far.schedule)
    modifies far
    ensures far.inbound == next && Clean(far.schedule)
    ensures far.outbound == old(far.outbound) + ReplyThen(t.id, BackendAnswer(backend, t), padding, [])
  {
    hide CppDecode, CppAccepts, CppSendable, WireThen, MessageOf, BackendReply, BackendAnswer, ReplyThen, ReplyFits;
    SentMessage(t, backend, limits);
    CppDecodeExact(far.inbound, MessageOf(t), next);
    var turn := CppServeOne(far, backend, padding);
  }

  // The session's side.
  lemma CppAnswered(s: State<Reply>, t: Tagged, reply: Reply, padding: U32, limits: Limits)
      returns (states: seq<State<Reply>>, steps: seq<Step>)
    requires t.request.WellFormed() && CppSendable(t.request, limits) && ReplyFits(reply) && Ready(s)
    ensures Leads(CppCodec(), s, states, steps) && |states| == |steps| + 1 && Ready(states[|steps|])
    ensures states[|steps|].returned == s.returned + [Return(MessageOf(t), reply, |s.services|, |s.services| + 1)]
  {
    hide CppDecode, CppAccepts, CppSendable, Consistent, MessageOf, ReplyFits, Framed, Leads, Ready;
    CppCodecFramed();
    SentMessage(t, _ => reply, limits);
    AcceptedIsConsistent(MessageOf(t));
    states, steps := CanAnswer(CppCodec(), s, MessageOf(t), reply, padding);
  }

  // Consecutive request ids, as the client hands them out.
  predicate Numbered(ts: seq<Tagged>, first: U64) {
    forall i :: 0 <= i < |ts| ==> ts[i].id == (first + i) % 0x1_0000_0000_0000_0000
  }

  lemma NumberedRest(ts: seq<Tagged>, first: U64)
    requires Numbered(ts, first) && ts != []
    ensures ts[0].id == first && Numbered(ts[1..], (first + 1) % 0x1_0000_0000_0000_0000)
  {
    forall i | 0 <= i < |ts| - 1 ensures ts[1..][i].id == ((first + 1) % 0x1_0000_0000_0000_0000 + i) % 0x1_0000_0000_0000_0000 {
      assert ts[1..][i] == ts[i + 1];
    }
    assert ts[0].id == (first + 0) % 0x1_0000_0000_0000_0000;
  }

  /** Up to 2^64 calls in a row carry different ids. */
  lemma IdsDiffer(ts: seq<Tagged>, first: U64, i: nat, j: nat)
    requires i < j < |ts| <= 0x1_0000_0000_0000_0000
    requires ts[i].id == (first + i) % 0x1_0000_0000_0000_0000 && ts[j].id == (first + j) % 0x1_0000_0000_0000_0000
    ensures ts[i].id != ts[j].id
  {
    var q, r := (first + i) / 0x1_0000_0000_0000_0000, (first + j) / 0x1_0000_0000_0000_0000;
    assert j - i == (r - q) * 0x1_0000_0000_0000_0000 + (ts[j].id - ts[i].id);
  }

  /** The reply to one of these calls is refused by every other. */
  lemma RepliesAreNotConfused(ts: seq<Tagged>, first: U64, i: nat, j: nat, r: Reply, padding: U32, next: seq<Byte>)
    requires i < |ts| && j < |ts| <= 0x1_0000_0000_0000_0000 && i != j && ReplyFits(r)
    requires forall k :: 0 <= k < |ts| ==> ts[k].id == (first + k) % 0x1_0000_0000_0000_0000
    ensures CppReadReply(ts[i].id, ReplyThen(ts[i].id, r, padding, next)) == Done(r, next)
    ensures CppReadReply(ts[j].id, ReplyThen(ts[i].id, r, padding, next)) == Bad
    ensures PyReadReply(ts[j].id, ReplyThen(ts[i].id, r, padding, next)) == Bad
  {
    hide CppReadReply, PyReadReply, ReplyThen;
    IdsDiffer(ts, first, if i < j then i else j, if i < j then j else i);
    ReplyReadBack(ts[i].id, ts[i].id, r, padding, next);
    ReplyReadBack(ts[j].id, ts[i].id, r, padding, next);
  }

  // The runs so far returned the replies to the requests so far.
  ghost predicate Returned(s: State<Reply>, s': State<Reply>, ts: seq<Tagged>, replies: seq<Reply>) {
    && |ts| == |replies| && |s'.returned| == |s.returned| + |ts| && s.returned <= s'.returned
    && forall i :: 0 <= i < |ts| ==>
         s'.returned[|s.returned| + i].message == MessageOf(ts[i]) && s'.returned[|s.returned| + i].answer == replies[i]
  }

  lemma ReturnedFirst(s: State<Reply>, s1: State<Reply>, s2: State<Reply>, t: Tagged, reply: Reply,
                      ts: seq<Tagged>, replies: seq<Reply>, r: Return<Reply>)
    requires s1.returned == s.returned + [r] && r.message == MessageOf(t) && r.answer == reply
    requires Returned(s1, s2, ts, replies)
    ensures Returned(s, s2, [t] + ts, [reply] + replies)
  {
    hide MessageOf;
    var n := |s.returned|;
    assert s2.returned[n] == s1.returned[n] == r;
    forall i | 0 <= i < |ts|
      ensures s2.returned[n + (i + 1)].message == MessageOf(ts[i]) && s2.returned[n + (i + 1)].answer == replies[i]
    {
      assert n + (i + 1) == |s1.returned| + i;
    }
  }

  // What the two ends still have to read.
  ghost predicate Ahead(near: seq<Byte>, far: seq<Byte>, backend: Backend, padding: U32, ts: seq<Tagged>) {
    && (forall i :: 0 <= i < |ts| ==> ReplyFits(BackendAnswer(backend, ts[i])))
    && near == ToRead(backend, padding, ts) && far == EncMany(Wire, Map(MessageOf, ts))
  }

  lemma AheadFirst(near: seq<Byte>, far: seq<Byte>, backend: Backend, padding: U32, ts: seq<Tagged>)
      returns (near': seq<Byte>, far': seq<Byte>)
    requires Ahead(near, far, backend, padding, ts) && ts != []
    ensures ReplyFits(BackendAnswer(backend, ts[0]))
    ensures near == ReplyThen(ts[0].id, BackendAnswer(backend, ts[0]), padding, near')
    ensures near == ReplyThen(ts[0].id, BackendAnswer(backend, ts[0]), padding, []) + near'
    ensures far == WireThen(MessageOf(ts[0]), far') && far == Wire(MessageOf(ts[0])) + far'
    ensures Ahead(near', far', backend, padding, ts[1..])
  {
    hide ReplyThen, BackendAnswer, ReplyFits, WireThen, Wire, MessageOf;
    near', far' := ToRead(backend, padding, ts[1..]), EncMany(Wire, Map(MessageOf, ts[1..]));
    assert Map(MessageOf, ts)[1..] == Map(MessageOf, ts[1..]);
    WireThenIsConcat(MessageOf(ts[0]), EncMany(Wire, Map(MessageOf, ts[1..])));
    ReplyThenIsConcat(ts[0].id, BackendAnswer(backend, ts[0]), padding, ToRead(backend, padding, ts[1..]));
  }

  // One exchange: the client's call on its end, and the worker's turn on the other.
  method CppExchange(client: CppClient, near: Channel, far: Channel, backend: Backend, ts: seq<Tagged>, padding: U32,
                     ghost limits: Limits)
      returns (reply: Reply)
    requires near != far && client.socket == near && client.limits == limits
    requires ts != [] && AllSendable(ts, limits) && Numbered(ts, client.nextRequestId)
    requires Ahead(near.inbound, far.inbound, backend, padding, ts)
    requires Clean(near.schedule) && Clean(far.schedule)
    modifies client, near, far
    ensures client.socket == near && Numbered(ts[1..], client.nextRequestId)
    ensures client.nextRequestId == (old(client.nextRequestId) + 1) % 0x1_0000_0000_0000_0000
    ensures ReplyFits(BackendAnswer(backend, ts[0])) && reply == BackendAnswer(backend, ts[0])
    ensures Ahead(near.inbound, far.inbound, backend, padding, ts[1..])
    ensures near.outbound + far.inbound == old(near.outbound + far.inbound)
    ensures far.outbound + near.inbound == old(far.outbound + near.inbound)
    ensures Clean(near.schedule) && Clean(far.schedule)
  {
    hide ReplyThen, BackendAnswer, ReplyFits, WireThen, Wire, MessageOf, CppSendable, Ahead;
    ghost var near', far' := AheadFirst(near.inbound, far.inbound, backend, padding, ts);
    assert ts[0].request.WellFormed() && CppSendable(ts[0].request, limits);
    NumberedRest(ts, client.nextRequestId);
    hide Numbered;
    var answer := CppCall(client, near, ts[0], BackendAnswer(backend, ts[0]), padding, near');
    CppTurn(far, backend, ts[0], padding, limits, far');
    reply := answer.reply;
  }

  // The exchanges that are left, one after another.
  method CppExchanges(client: CppClient, near: Channel, far: Channel, backend: Backend, ts: seq<Tagged>, padding: U32,
                      ghost limits: Limits, ghost s: State<Reply>)
      returns (replies: seq<Reply>, ghost states: seq<State<Reply>>, ghost steps: seq<Step>)
    requires near != far && client.socket == near && client.limits == limits
    requires AllSendable(ts, limits) && Numbered(ts, client.nextRequestId)
    requires Ahead(near.inbound, far.inbound, backend, padding, ts)
    requires Clean(near.schedule) && Clean(far.schedule) && Ready(s)
    modifies client, near, far
    ensures client.socket == near && client.nextRequestId == (old(client.nextRequestId) + |ts|) % 0x1_0000_0000_0000_0000
    ensures |replies| == |ts| && forall i :: 0 <= i < |ts| ==> replies[i] == BackendAnswer(backend, ts[i])
    ensures near.outbound == old(near.outbound + far.inbound) && far.inbound == []
    ensures far.outbound == old(far.outbound + near.inbound) && near.inbound == []
    ensures |states| == |steps| + 1 && Leads(CppCodec(), s, states, steps)
    ensures Ready(states[|steps|]) && Returned(s, states[|steps|], ts, replies)
    decreases |ts|
  {
    hide ReplyThen, BackendAnswer, ReplyFits, Wire, MessageOf, CppSendable, Leads, Ready, CppCodec, ToRead, Ahead;
    if ts == [] {
      NothingAhead(near.inbound, far.inbound, backend, padding);
      StandsStill(s);
      replies, states, steps := [], [s], [];
      return;
    }
    var reply := CppExchange(client, near, far, backend, ts, padding, limits);
    states, steps := CppAnswered(s, ts[0], reply, padding, limits);
    hide Returned, Numbered;
    ghost var s1 := states[|steps|];
    ghost var states', steps';
    replies, states', steps' := CppExchanges(client, near, far, backend, ts[1..], padding, limits, s1);
    assert [ts[0]] + ts[1..] == ts;
    ReturnedFirst(s, s1, states'[|steps'|], ts[0], reply, ts[1..], replies,
                  Return(MessageOf(ts[0]), reply, |s.services|, |s.services| + 1));
    LeadsFurther(CppCodec(), s, states, steps, states', steps');
    replies, states, steps := [reply] + replies, states + states'[1..], steps + steps';
  }

  /**
   * A whole conversation. The client makes its calls on one end of a connection and the worker
   * takes its turns on the other, under any schedules without failing calls. Each call carries
   * the next id, each end reads exactly what the other wrote and nothing is left; every call
   * returns the backend's reply to its own request; and all of it is a run of the session's state
   * machine that returns these answers to these messages, in order.
   */
  method CppConverse(client: CppClient, near: Channel, far: Channel, backend: Backend, ts: seq<Tagged>, padding: U32,
                     ghost limits: Limits, ghost s: State<Reply>)
      returns (replies: seq<Reply>, ghost states: seq<State<Reply>>, ghost steps: seq<Step>)
    requires near != far && client.socket == near && client.limits == limits && AllSendable(ts, limits)
    requires forall i :: 0 <= i < |ts| ==> ts[i].id == (client.nextRequestId + i) % 0x1_0000_0000_0000_0000
    requires forall i :: 0 <= i < |ts| ==> ReplyFits(BackendAnswer(backend, ts[i]))
    requires near.inbound == AnswersTo(backend, padding, ts) && far.inbound == EncMany(Wire, Map(MessageOf, ts))
    requires Clean(near.schedule) && Clean(far.schedule) && Ready(s)
    modifies client, near, far
    ensures client.socket == near && client.nextRequestId == (old(client.nextRequestId) + |ts|) % 0x1_0000_0000_0000_0000
    ensures |replies| == |ts| && forall i :: 0 <= i < |ts| ==> replies[i] == BackendAnswer(backend, ts[i])
    ensures near.outbound == old(near.outbound + far.inbound) && far.inbound == []
    ensures far.outbound == old(far.outbound + near.inbound) && near.inbound == []
    ensures |states| == |steps| + 1 && Leads(CppCodec(), s, states, steps) && Ready(states[|steps|])
    ensures var before, after := s.returned, states[|steps|].returned;
            && |after| == |before| + |ts| && before <= after
            && forall i :: 0 <= i < |ts| ==>
                 after[|before| + i].message == MessageOf(ts[i]) && after[|before| + i].answer == replies[i]
  {
    hide AnswersTo, ToRead, AllSendable, Leads, Ready, CppCodec, BackendAnswer, ReplyFits, Wire, MessageOf;
    AnswersAreRead(backend, padding, ts);
    replies, states, steps := CppExchanges(client, near, far, backend, ts, padding, limits, s);
  }

  lemma StandsStill(s: State<Reply>)
    ensures Leads(CppCodec(), s, [s], [])
  {
  }

  lemma NothingAhead(near: seq<Byte>, far: seq<Byte>, backend: Backend, padding: U32)
    requires Ahead(near, far, backend, padding, [])
    ensures near == [] && far == []
  {
  }
}
