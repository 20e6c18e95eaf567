// A Block1 upload end to end.
module BlockProtocol {
  import opened Common
  import opened BlockTransfer

  // The parties: a stop-and-wait sender, a channel that loses, duplicates and
  // reorders, and the reassembling receiver.

  // One upload of `payload` in blocks of `size` bytes under the name `id`.
  datatype Upload = Upload(payload: seq<byte>, size: nat, id: Identifier)

  // Block1 is used for payloads longer than one block.
  ghost predicate Sensible(u: Upload) { 0 < u.size < |u.payload| }

  datatype Request = Request(mid: uint16, num: nat, more: bool, data: seq<byte>)

  datatype Reply = Reply(mid: uint16, success: bool)

  // `mids` holds the message id of every block sent so far, so the block in
  // flight is number |mids| - 1. Everything ever sent may still arrive, any
  // number of times: the channel is the sets of requests and replies. `high`
  // records the highest block of this upload the receiver has stored, -1 for none.
  datatype System = System(
    mids: seq<uint16>, active: bool,
    requests: set<Request>, replies: set<Reply>,
    blocks: seq<Block>, high: int, delivered: seq<seq<byte>>)

  // accepted: how the application answers the complete payload.
  datatype Action =
    | ReceiveRequest(r: Request, accepted: bool)
    | ReceiveReply(a: Reply, nextMid: uint16)
    | OtherTransfer(id: Identifier, data: seq<byte>, size: nat, num: nat, more: bool)
    | GiveUp

  function BlockCount(u: Upload): nat
    requires u.size > 0
  {
    (|u.payload| + u.size - 1) / u.size
  }

  lemma CountBounds(u: Upload)
    requires Sensible(u)
    ensures var n := BlockCount(u); n >= 2 && (n - 1) * u.size < |u.payload| <= n * u.size
  {
    var q, k := |u.payload| + u.size - 1, BlockCount(u);
    assert q == k * u.size + q % u.size;
    assert k * u.size == (k - 1) * u.size + u.size;
    if k < 2 { Monotone(k, 1, u.size); }
  }

  lemma Monotone(a: nat, b: nat, size: nat)
    requires a <= b
    ensures a * size <= b * size
  {
  }

  lemma InRange(u: Upload, num: nat)
    requires Sensible(u)
    ensures num < BlockCount(u) <==> num * u.size < |u.payload|
  {
    CountBounds(u);
    if num < BlockCount(u) { Monotone(num, BlockCount(u) - 1, u.size); } else { Monotone(BlockCount(u), num, u.size); }
  }

  function RequestFor(u: Upload, mid: uint16, num: nat): Request
    requires num * u.size <= |u.payload|
  {
    var s := SliceAt(u.payload, num, u.size);
    Request(mid, num, s.more, s.data)
  }

  // The payload up to and including block `num`.
  function Prefix(u: Upload, num: nat): seq<byte> {
    u.payload[..Min((num + 1) * u.size, |u.payload|)]
  }

  ghost predicate Initial(u: Upload, s: System) {
    && Sensible(u)
    && |s.mids| == 1 && s.active
    && s.requests == {RequestFor(u, s.mids[0], 0)} && s.replies == {}
    && s.high == -1 && s.delivered == []
  }

  // ----- Steps --------------------------------------------------------------

  // The receiver answers 2.31 or a success code to a block it takes, and the
  // same again to a repeated one; a complete payload gets the application's
  // answer, an incomplete transfer 4.08.
  function ReplyTo(out: Outcome, mid: uint16, accepted: bool): Reply {
    Reply(mid, match out.code
               case Continue => true
               case Retransmission => true
               case NoError => accepted
               case Incomplete => false)
  }

  predicate Stores(s: System, u: Upload, num: nat) {
    || num == 0
    || (Record(s.blocks, u.id).Some? && var b := Record(s.blocks, u.id).value;
                                        num == b.num + 1 && |b.buffer| == u.size * num)
  }

  ghost function Act(u: Upload, s: System, a: Action): System
    requires u.size > 0
  {
    match a
    case ReceiveRequest(r, accepted) =>
      var (blocks, out) := Handle(s.blocks, u.id, r.data, u.size, r.num, r.more);
      s.(blocks := blocks,
         high := if Stores(s, u, r.num) then Max(s.high, r.num) else s.high,
         replies := s.replies + {ReplyTo(out, r.mid, accepted)},
         delivered := match out.complete case None => s.delivered case Some(p) => s.delivered + [p])
    case ReceiveReply(reply, nextMid) =>
      // Only the transaction in flight is listed; other ids find nothing.
      if !s.active || |s.mids| == 0 || reply.mid != s.mids[|s.mids| - 1] then s
      else if !reply.success then s.(active := false)
      else (
        match SendNext(u.payload, Slice(|s.mids| - 1, true, u.size, []), u.size)
        case None => s.(active := false)
        case Some(next) =>
          s.(mids := s.mids + [nextMid],
             requests := s.requests + {Request(nextMid, next.num, next.more, next.data)}))
    case OtherTransfer(id, data, size, num, more) =>
      s.(blocks := Handle(s.blocks, id, data, size, num, more).0)
    case GiveUp => s.(active := false)
  }

  // What the channel may do: deliver what was sent. Message ids of one upload
  // are distinct.
  ghost predicate Enabled(u: Upload, s: System, a: Action) {
    match a
    case ReceiveRequest(r, _) => r in s.requests
    case ReceiveReply(reply, nextMid) => reply in s.replies && nextMid !in s.mids
    case OtherTransfer(id, _, _, _, _) => id != u.id
    case GiveUp => true
  }

  // No copy of block 0 arrives once a later block has been stored.
  ghost predicate NotLate(s: System, a: Action) {
    a.ReceiveRequest? && a.r.num == 0 ==> s.high <= 0
  }

  ghost predicate Reaches(u: Upload, s: System, actions: seq<Action>, t: System, timely: bool)
    requires u.size > 0
    decreases |actions|
  {
    if actions == [] then s == t
    else
      && Enabled(u, s, actions[0]) && (timely ==> NotLate(s, actions[0]))
      && Reaches(u, Act(u, s, actions[0]), actions[1..], t, timely)
  }

  // ----- The slices of an upload --------------------------------------------

  lemma SliceFacts(u: Upload, mid: uint16, num: nat)
    requires Sensible(u) && num < BlockCount(u)
    ensures num * u.size < |u.payload|
    ensures var r := RequestFor(u, mid, num);
            && r.num == num && (r.more <==> num + 1 < BlockCount(u))
            && Prefix(u, num) == (if num == 0 then [] else Prefix(u, num - 1)) + r.data
    ensures num > 0 ==> |Prefix(u, num - 1)| == u.size * num
    ensures num + 1 == BlockCount(u) ==> Prefix(u, num) == u.payload
    ensures num + 1 < BlockCount(u) ==> Prefix(u, num) != u.payload
  {
    InRange(u, num);
    InRange(u, num + 1);
    assert (num + 1) * u.size == num * u.size + u.size;
    if num > 0 {
      assert num * u.size == (num - 1) * u.size + u.size;
    }
  }

  lemma NextRequest(u: Upload, num: nat, mid: uint16)
    requires Sensible(u) && num < BlockCount(u)
    ensures var next := SendNext(u.payload, Slice(num, true, u.size, []), u.size);
            if num + 1 < BlockCount(u) then
              && (num + 1) * u.size <= |u.payload|
              && next.Some?
              && RequestFor(u, mid, num + 1) == Request(mid, next.value.num, next.value.more, next.value.data)
            else next == None
  {
    InRange(u, num + 1);
    var last := Slice(num, true, u.size, []);
    assert NextSize(last, u.size) == u.size;
    assert NextNum(last, u.size) == num + 1;
  }

  // ----- Under any channel --------------------------------------------------

  // Whatever is lost, repeated or reordered: only slices of the payload are in
  // flight, and the receiver holds the payload up to the block it has on record.
  ghost predicate Sound(u: Upload, s: System) {
    && Sensible(u)
    && 1 <= |s.mids| <= BlockCount(u)
    && (forall i, j :: 0 <= i < j < |s.mids| ==> s.mids[i] != s.mids[j])
    && (forall r :: r in s.requests ==> InFlight(u, s, r))
    && (forall i :: 0 <= i < |s.mids| ==> SentBlock(u, s, i))
    && -1 <= s.high < |s.mids|
    && (|s.mids| > 1 || s.replies != {} ==> s.high >= 0)
    && (s.high >= 0 ==> Holds(u, s))
  }

  ghost predicate InFlight(u: Upload, s: System, r: Request)
    requires Sensible(u) && |s.mids| <= BlockCount(u)
  {
    && r.num < |s.mids|
    && (InRange(u, r.num); r == RequestFor(u, s.mids[r.num], r.num))
  }

  ghost predicate SentBlock(u: Upload, s: System, i: nat)
    requires Sensible(u) && i < |s.mids| <= BlockCount(u)
  {
    InRange(u, i);
    RequestFor(u, s.mids[i], i) in s.requests
  }

  ghost predicate Holds(u: Upload, s: System) {
    && Record(s.blocks, u.id).Some?
    && var b := Record(s.blocks, u.id).value;
       b.num <= s.high && b.buffer == Prefix(u, b.num)
  }

  // What the arrival of block `num` does to the receiver.
  lemma Arrival(u: Upload, s: System, r: Request, accepted: bool)
    requires Sound(u, s) && r in s.requests
    ensures var s' := Act(u, s, ReceiveRequest(r, accepted));
            && Holds(u, s') && 0 <= s'.high
            && (s.high == -1 ==> r.num == 0)
            && (r.num > 0 ==> var b := Record(s.blocks, u.id).value;
                              && s'.high == (if r.num == b.num + 1 then Max(s.high, r.num) else s.high)
                              && Record(s'.blocks, u.id).value.num == if r.num == b.num + 1 then r.num else b.num)
            && (r.num == 0 ==> s'.high == Max(s.high, 0) && Record(s'.blocks, u.id).value.num == 0)
  {
    assert InFlight(u, s, r);
    SliceFacts(u, r.mid, r.num);
    HandleRecord(s.blocks, u.id, r.data, u.size, r.num, r.more);
    if r.num > 0 {
      var b := Record(s.blocks, u.id).value;
      if b.num + 1 == r.num { SliceFacts(u, 0, b.num); }
    }
  }

  lemma SoundKept(u: Upload, s: System, a: Action)
    requires Sound(u, s) && Enabled(u, s, a)
    ensures Sound(u, Act(u, s, a))
  {
    var s' := Act(u, s, a);
    match a
    case ReceiveRequest(r, accepted) =>
      Arrival(u, s, r, accepted);
      assert InFlight(u, s, r);
      SameRequests(u, s, s');
    case ReceiveReply(reply, nextMid) =>
      if s.active && reply.mid == s.mids[|s.mids| - 1] && reply.success {
        NextRequest(u, |s.mids| - 1, nextMid);
        if |s.mids| < BlockCount(u) {
          OneMoreRequest(u, s, s', nextMid);
        } else {
          SameRequests(u, s, s');
        }
      } else {
        SameRequests(u, s, s');
      }
    case OtherTransfer(id, data, size, num, more) =>
      HandleFrame(s.blocks, id, data, size, num, more, u.id);
      SameRequests(u, s, s');
    case GiveUp => SameRequests(u, s, s');
  }

  lemma SameRequests(u: Upload, s: System, s': System)
    requires Sound(u, s) && s'.mids == s.mids && s'.requests == s.requests
    ensures forall r :: r in s'.requests ==> InFlight(u, s', r)
    ensures forall i :: 0 <= i < |s'.mids| ==> SentBlock(u, s', i)
  {
    forall r | r in s'.requests ensures InFlight(u, s', r) { assert InFlight(u, s, r); }
    forall i | 0 <= i < |s'.mids| ensures SentBlock(u, s', i) { assert SentBlock(u, s, i); }
  }

  lemma OneMoreRequest(u: Upload, s: System, s': System, nextMid: uint16)
    requires Sound(u, s) && |s.mids| < BlockCount(u) && s'.mids == s.mids + [nextMid]
    requires |s.mids| * u.size <= |u.payload|
    requires s'.requests == s.requests + {RequestFor(u, nextMid, |s.mids|)}
    ensures forall r :: r in s'.requests ==> InFlight(u, s', r)
    ensures forall i :: 0 <= i < |s'.mids| ==> SentBlock(u, s', i)
  {
    forall r | r in s'.requests ensures InFlight(u, s', r) {
      if r in s.requests { assert InFlight(u, s, r); }
    }
    forall i | 0 <= i < |s'.mids| ensures SentBlock(u, s', i) {
      if i < |s.mids| { assert SentBlock(u, s, i); }
    }
  }

  lemma {:induction false} SoundAlways(u: Upload, s: System, actions: seq<Action>, t: System, timely: bool)
    requires Sound(u, s) && Reaches(u, s, actions, t, timely)
    ensures Sound(u, t)
    decreases |actions|
  {
    if actions != [] {
      SoundKept(u, s, actions[0]);
      SoundAlways(u, Act(u, s, actions[0]), actions[1..], t, timely);
    }
  }

  lemma InitiallySound(u: Upload, s: System)
    requires Initial(u, s)
    ensures Sound(u, s)
  {
    CountBounds(u);
    assert SentBlock(u, s, 0);
    forall r | r in s.requests ensures InFlight(u, s, r) {}
  }

  // ----- Over a timely channel ----------------------------------------------

  ghost predicate Acked(s: System, reply: Reply) {
    exists i :: 0 <= i < |s.mids| && i <= s.high && s.mids[i] == reply.mid
  }

  // The block in flight is at most one ahead of the receiver, what is on
  // record is the highest block stored, and the payload is handed over when
  // its last block is stored.
  ghost predicate InStep(u: Upload, s: System) {
    && Sound(u, s)
    && |s.mids| - 1 <= s.high + 1
    && (s.high >= 0 ==> Record(s.blocks, u.id).value.num == s.high)
    && (forall reply :: reply in s.replies ==> Acked(s, reply))
    && (forall reply :: reply in s.replies && !reply.success ==>
          s.high == BlockCount(u) - 1 && reply.mid == s.mids[BlockCount(u) - 1])
    && s.delivered == if s.high == BlockCount(u) - 1 then [u.payload] else []
  }

  lemma InStepRequest(u: Upload, s: System, r: Request, accepted: bool)
    requires InStep(u, s) && r in s.requests && (r.num == 0 ==> s.high <= 0)
    ensures InStep(u, Act(u, s, ReceiveRequest(r, accepted)))
  {
    var s' := Act(u, s, ReceiveRequest(r, accepted));
    CountBounds(u);
    SoundKept(u, s, ReceiveRequest(r, accepted));
    Arrival(u, s, r, accepted);
    assert InFlight(u, s, r);
    SliceFacts(u, r.mid, r.num);
    HandleRecord(s.blocks, u.id, r.data, u.size, r.num, r.more);
    var out := Handle(s.blocks, u.id, r.data, u.size, r.num, r.more).1;
    assert out.code != Incomplete by {
      if r.num > 0 { SliceFacts(u, 0, s.high); }
    }
    forall reply | reply in s'.replies ensures Acked(s', reply) {
      if reply in s.replies {
        assert Acked(s, reply);
      } else {
        assert s'.mids[r.num] == reply.mid;
      }
    }
  }

  lemma InStepReply(u: Upload, s: System, reply: Reply, nextMid: uint16)
    requires InStep(u, s) && reply in s.replies && nextMid !in s.mids
    ensures InStep(u, Act(u, s, ReceiveReply(reply, nextMid)))
  {
    var s' := Act(u, s, ReceiveReply(reply, nextMid));
    SoundKept(u, s, ReceiveReply(reply, nextMid));
    assert Acked(s, reply);
    if s.active && reply.mid == s.mids[|s.mids| - 1] && reply.success {
      NextRequest(u, |s.mids| - 1, nextMid);
      assert s.high == |s.mids| - 1;
    }
    forall a | a in s'.replies ensures Acked(s', a) {
      assert Acked(s, a);
      var i :| 0 <= i < |s.mids| && i <= s.high && s.mids[i] == a.mid;
      assert s'.mids[i] == a.mid;
    }
  }

  lemma InStepKept(u: Upload, s: System, a: Action)
    requires InStep(u, s) && Enabled(u, s, a) && NotLate(s, a)
    ensures InStep(u, Act(u, s, a))
  {
    match a
    case ReceiveRequest(r, accepted) => InStepRequest(u, s, r, accepted);
    case ReceiveReply(reply, nextMid) => InStepReply(u, s, reply, nextMid);
    case OtherTransfer(id, data, size, num, more) =>
      SoundKept(u, s, a);
      HandleFrame(s.blocks, id, data, size, num, more, u.id);
      forall reply | reply in s.replies ensures Acked(Act(u, s, a), reply) { assert Acked(s, reply); }
    case GiveUp =>
      SoundKept(u, s, a);
      forall reply | reply in s.replies ensures Acked(Act(u, s, a), reply) { assert Acked(s, reply); }
  }

  lemma {:induction false} InStepAlways(u: Upload, s: System, actions: seq<Action>, t: System)
    requires InStep(u, s) && Reaches(u, s, actions, t, true)
    ensures InStep(u, t)
    decreases |actions|
  {
    if actions != [] {
      InStepKept(u, s, actions[0]);
      InStepAlways(u, Act(u, s, actions[0]), actions[1..], t);
    }
  }

  // ----- Theorems -----------------------------------------------------------

  // Every run over a channel that loses, repeats and reorders, as long as no
  // copy of block 0 arrives after block 1 was stored: the receiver's buffer is
  // the payload up to the highest block stored, the block in flight is at most
  // one ahead, and the payload is delivered once, when its last block is
  // stored, and never anything else.
  lemma TransferSafe(u: Upload, s: System, actions: seq<Action>, t: System)
    requires Initial(u, s) && Reaches(u, s, actions, t, true)
    ensures |t.mids| - 1 <= t.high + 1
    ensures t.high >= 0 ==>
              Record(t.blocks, u.id) == Some(Block(u.id, Prefix(u, t.high), t.high))
    ensures t.delivered == if t.high == BlockCount(u) - 1 then [u.payload] else []
  {
    InitiallySound(u, s);
    CountBounds(u);
    InStepAlways(u, s, actions, t);
  }

  // Once the payload was delivered, a copy of any later block is recognised as
  // a retransmission.
  lemma CopiesAreRetransmissions(u: Upload, s: System, actions: seq<Action>, t: System, r: Request)
    requires Initial(u, s) && Reaches(u, s, actions, t, true)
    requires t.delivered != [] && r in t.requests && r.num > 0
    ensures Handle(t.blocks, u.id, r.data, u.size, r.num, r.more) == (t.blocks, Outcome(Retransmission, None))
  {
    InitiallySound(u, s);
    CountBounds(u);
    InStepAlways(u, s, actions, t);
    assert InFlight(u, t, r);
  }

  // Over an unrestricted channel, exactly when the last block hands over the
  // payload: it must be next in line. If the receiver was thrown back to an
  // earlier block, by a late copy of block 0, the last block is answered like a
  // completed transfer but hands over a truncated payload; if it was stored
  // before, it is a retransmission.
  lemma LastBlockIff(u: Upload, s: System, actions: seq<Action>, t: System, r: Request)
    requires Initial(u, s) && Reaches(u, s, actions, t, false)
    requires r in t.requests && r.num == BlockCount(u) - 1
    ensures Record(t.blocks, u.id).Some?
    ensures var out := Handle(t.blocks, u.id, r.data, u.size, r.num, r.more).1;
            var held := Record(t.blocks, u.id).value.num;
            && (out == Outcome(NoError, Some(u.payload)) <==> held == BlockCount(u) - 2)
            && (held < BlockCount(u) - 2 ==>
                  out == Outcome(NoError, Some(Prefix(u, held))) && Prefix(u, held) != u.payload)
            && (held > BlockCount(u) - 2 ==> out == Outcome(Retransmission, None))
  {
    InitiallySound(u, s);
    SoundAlways(u, s, actions, t, false);
    CountBounds(u);
    assert InFlight(u, t, r);
    SliceFacts(u, r.mid, r.num);
    var held := Record(t.blocks, u.id).value.num;
    SliceFacts(u, 0, held);
  }

  // The restriction on block 0 is needed: from every point where all but the
  // last block of three or more have been stored, a late copy of block 0
  // followed by the last block delivers the first block as the whole payload.
  lemma LateFirstBlockTruncates(u: Upload, s: System, actions: seq<Action>, t: System, accepted: bool)
    returns (late: Action, last: Action)
    requires Initial(u, s) && Reaches(u, s, actions, t, true)
    requires BlockCount(u) >= 3 && |t.mids| == BlockCount(u) && t.high == BlockCount(u) - 2
    ensures late.ReceiveRequest? && late.r.num == 0 && Enabled(u, t, late)
    ensures last.ReceiveRequest? && last.r.num == BlockCount(u) - 1 && Enabled(u, Act(u, t, late), last)
    ensures Act(u, Act(u, t, late), last).delivered == [u.payload[..u.size]]
    ensures u.payload[..u.size] != u.payload
  {
    InitiallySound(u, s);
    CountBounds(u);
    InStepAlways(u, s, actions, t);
    var n := BlockCount(u);
    InRange(u, 0);
    InRange(u, n - 1);
    assert SentBlock(u, t, 0) && SentBlock(u, t, n - 1);
    late := ReceiveRequest(RequestFor(u, t.mids[0], 0), accepted);
    last := ReceiveRequest(RequestFor(u, t.mids[n - 1], n - 1), accepted);
    LateBlock(u, t, late);
    SkippedBlock(u, Act(u, t, late), last);
  }

  lemma LateBlock(u: Upload, t: System, late: Action)
    requires Sound(u, t) && late.ReceiveRequest? && late.r in t.requests && late.r.num == 0
    ensures var t' := Act(u, t, late);
            && Sound(u, t') && t'.requests == t.requests && t'.delivered == t.delivered && t'.mids == t.mids
            && Record(t'.blocks, u.id) == Some(Block(u.id, u.payload[..u.size], 0))
  {
    assert InFlight(u, t, late.r);
    CountBounds(u);
    SliceFacts(u, late.r.mid, 0);
    SoundKept(u, t, late);
    HandleRecord(t.blocks, u.id, late.r.data, u.size, 0, late.r.more);
  }

  lemma SkippedBlock(u: Upload, t: System, last: Action)
    requires Sound(u, t) && last.ReceiveRequest? && last.r in t.requests
    requires last.r.num == BlockCount(u) - 1 >= 2
    requires Record(t.blocks, u.id).Some? && Record(t.blocks, u.id).value.num == 0
    ensures Act(u, t, last).delivered == t.delivered + [Record(t.blocks, u.id).value.buffer]
  {
    assert InFlight(u, t, last.r);
    SliceFacts(u, last.r.mid, last.r.num);
  }

  // ----- A run that succeeds ------------------------------------------------

  lemma {:induction false} ReachesMore(u: Upload, s: System, actions: seq<Action>, t: System, a: Action)
    requires u.size > 0 && Reaches(u, s, actions, t, true) && Enabled(u, t, a) && NotLate(t, a)
    ensures Reaches(u, s, actions + [a], Act(u, t, a), true)
    decreases |actions|
  {
    if actions == [] {
      assert (actions + [a])[1..] == [];
    } else {
      assert (actions + [a])[1..] == actions[1..] + [a];
      ReachesMore(u, Act(u, s, actions[0]), actions[1..], t, a);
    }
  }

  lemma {:induction false} FewerThan(mids: seq<uint16>, ids: set<uint16>)
    requires forall m :: m in ids ==> m in mids
    ensures |ids| <= |mids|
  {
    if mids != [] {
      forall m | m in ids - {mids[0]} ensures m in mids[1..] {
        var i :| 0 <= i < |mids| && mids[i] == m;
        assert mids[1..][i - 1] == m;
      }
      FewerThan(mids[1..], ids - {mids[0]});
    }
  }

  lemma {:induction false} IdsBelow(n: nat) returns (ids: set<uint16>)
    requires n <= 0x1_0000
    ensures |ids| == n && forall m: uint16 :: m in ids <==> m < n
  {
    ids := {};
    if n > 0 {
      var fewer := IdsBelow(n - 1);
      var top: uint16 := n - 1;
      assert top !in fewer;
      ids := fewer + {top};
    }
  }

  // Some message id is left for the next block.
  lemma FreshMid(mids: seq<uint16>) returns (m: uint16)
    requires |mids| < 0x1_0000
    ensures m !in mids
  {
    var ids := IdsBelow(0x1_0000);
    if forall m :: m in ids ==> m in mids { FewerThan(mids, ids); }
    m :| m !in mids;
  }

  // The sender waits for the reply to the block in flight, the receiver for
  // that block.
  ghost predicate Waiting(u: Upload, t: System) {
    InStep(u, t) && t.active && t.high == |t.mids| - 2
  }

  lemma TakeBlock(u: Upload, t: System) returns (take: Action)
    requires Waiting(u, t)
    ensures Enabled(u, t, take) && NotLate(t, take)
    ensures var t1 := Act(u, t, take);
            && InStep(u, t1) && t1.active && t1.mids == t.mids && t1.high == |t.mids| - 1
            && Reply(t.mids[|t.mids| - 1], true) in t1.replies
  {
    var k := |t.mids| - 1;
    InRange(u, k);
    assert SentBlock(u, t, k);
    take := ReceiveRequest(RequestFor(u, t.mids[k], k), true);
    Arrival(u, t, take.r, true);
    InStepKept(u, t, take);
    assert ReplyTo(Handle(t.blocks, u.id, take.r.data, u.size, k, take.r.more).1, t.mids[k], true).success by {
      SliceFacts(u, t.mids[k], k);
      if k > 0 { SliceFacts(u, 0, k - 1); }
    }
  }

  lemma SendBlock(u: Upload, t: System) returns (go: Action)
    requires InStep(u, t) && t.active && t.high == |t.mids| - 1
    requires |t.mids| < BlockCount(u) <= 0x1_0000 && Reply(t.mids[|t.mids| - 1], true) in t.replies
    ensures Enabled(u, t, go) && NotLate(t, go)
    ensures Waiting(u, Act(u, t, go)) && |Act(u, t, go).mids| == |t.mids| + 1
  {
    var k := |t.mids| - 1;
    var m := FreshMid(t.mids);
    go := ReceiveReply(Reply(t.mids[k], true), m);
    NextRequest(u, k, m);
    InStepKept(u, t, go);
  }

  lemma {:induction false} CanComplete(u: Upload, s: System, actions: seq<Action>, t: System)
    returns (more: seq<Action>, end: System)
    requires u.size > 0 && Reaches(u, s, actions, t, true) && Waiting(u, t) && BlockCount(u) <= 0x1_0000
    ensures Reaches(u, s, more, end, true) && end.delivered == [u.payload]
    decreases BlockCount(u) - |t.mids|
  {
    var take := TakeBlock(u, t);
    ReachesMore(u, s, actions, t, take);
    more, end := actions + [take], Act(u, t, take);
    if |t.mids| < BlockCount(u) {
      var go := SendBlock(u, end);
      ReachesMore(u, s, more, end, go);
      more, end := CanComplete(u, s, more + [go], Act(u, end, go));
    }
  }

  // From every start some timely run delivers the payload.
  lemma TransferPossible(u: Upload, s: System) returns (actions: seq<Action>, end: System)
    requires Initial(u, s) && BlockCount(u) <= 0x1_0000
    ensures Reaches(u, s, actions, end, true) && end.delivered == [u.payload]
  {
    InitiallySound(u, s);
    CountBounds(u);
    actions, end := CanComplete(u, s, [], s);
  }
}
