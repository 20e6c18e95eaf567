// What a late copy of block 0 can do to a Block1 upload.
module BlockLateness {
  import opened Common
  import opened BlockTransfer
  import opened BlockProtocol

  ghost predicate IsFirstBlock(a: Action) { a.ReceiveRequest? && a.r.num == 0 }

  ghost predicate NoFirstBlock(actions: seq<Action>) {
    forall i :: 0 <= i < |actions| ==> !IsFirstBlock(actions[i])
  }

  // Something else than the payload was delivered, or the payload twice.
  ghost predicate Spoiled(u: Upload, s: System) { s.delivered != [] && s.delivered != [u.payload] }

  // Without any further copy of block 0.
  ghost predicate CanBeSpoiled(u: Upload, s: System)
    requires u.size > 0
  {
    exists more, end :: Reaches(u, s, more, end, false) && NoFirstBlock(more) && Spoiled(u, end)
  }

  lemma Prepend(u: Upload, s: System, a: Action)
    requires u.size > 0 && Enabled(u, s, a) && !IsFirstBlock(a) && CanBeSpoiled(u, Act(u, s, a))
    ensures CanBeSpoiled(u, s)
  {
    var more, end :| Reaches(u, Act(u, s, a), more, end, false) && NoFirstBlock(more) && Spoiled(u, end);
    var all := [a] + more;
    assert all[0] == a && all[1..] == more;
    assert Reaches(u, s, all, end, false);
  }

  lemma AlreadySpoiled(u: Upload, s: System)
    requires u.size > 0 && Spoiled(u, s)
    ensures CanBeSpoiled(u, s)
  {
    assert Reaches(u, s, [], s, false) && NoFirstBlock([]);
  }

  // ----- The reply to the last block stored ---------------------------------

  ghost predicate Answered(u: Upload, s: System)
    requires InStep(u, s)
  {
    0 <= s.high < BlockCount(u) - 1 ==> Reply(s.mids[s.high], true) in s.replies
  }

  lemma AnsweredKept(u: Upload, s: System, a: Action)
    requires InStep(u, s) && Answered(u, s) && Enabled(u, s, a) && NotLate(s, a)
    ensures InStep(u, Act(u, s, a)) && Answered(u, Act(u, s, a))
  {
    InStepKept(u, s, a);
    if a.ReceiveRequest? {
      var r := a.r;
      Arrival(u, s, r, a.accepted);
      assert InFlight(u, s, r);
      SliceFacts(u, r.mid, r.num);
      HandleRecord(s.blocks, u.id, r.data, u.size, r.num, r.more);
      if r.num > 0 { SliceFacts(u, 0, s.high); }
    }
  }

  lemma {:induction false} AnsweredAlways(u: Upload, s: System, actions: seq<Action>, t: System)
    requires InStep(u, s) && Answered(u, s) && Reaches(u, s, actions, t, true)
    ensures InStep(u, t) && Answered(u, t)
    decreases |actions|
  {
    if actions != [] {
      AnsweredKept(u, s, actions[0]);
      AnsweredAlways(u, Act(u, s, actions[0]), actions[1..], t);
    }
  }

  lemma TimelyState(u: Upload, s: System, actions: seq<Action>, t: System)
    requires Initial(u, s) && Reaches(u, s, actions, t, true)
    ensures InStep(u, t) && Answered(u, t)
  {
    InitiallySound(u, s);
    CountBounds(u);
    AnsweredAlways(u, s, actions, t);
  }

  // ----- Three blocks or more -----------------------------------------------

  // The receiver is thrown back to block 0, while the sender goes on, or has
  // sent everything.
  ghost predicate Thrown(u: Upload, s: System) {
    && Sound(u, s) && BlockCount(u) >= 3 && |s.mids| >= 2
    && Record(s.blocks, u.id) == Some(Block(u.id, u.payload[..u.size], 0))
    && (s.delivered == [] || s.delivered == [u.payload])
    && (|s.mids| < BlockCount(u) ==>
          s.active && (|s.mids| >= 3 || Reply(s.mids[|s.mids| - 1], true) in s.replies))
  }

  lemma LastBlock(u: Upload, s: System) returns (a: Action)
    requires Thrown(u, s) && |s.mids| == BlockCount(u)
    ensures Enabled(u, s, a) && !IsFirstBlock(a) && Spoiled(u, Act(u, s, a))
  {
    var k := |s.mids| - 1;
    InRange(u, k);
    assert SentBlock(u, s, k);
    a := ReceiveRequest(RequestFor(u, s.mids[k], k), true);
    SkippedBlock(u, s, a);
    var end := Act(u, s, a).delivered;
    assert end[|end| - 1] == u.payload[..u.size] && |u.payload[..u.size]| < |u.payload|;
  }

  // The receiver answers a block that skips ahead as if it had stored it.
  lemma AnswerBlock(u: Upload, s: System) returns (a: Action)
    requires Thrown(u, s) && 3 <= |s.mids| < BlockCount(u)
    ensures Enabled(u, s, a) && !IsFirstBlock(a)
    ensures var s' := Act(u, s, a);
            Thrown(u, s') && s'.mids == s.mids && Reply(s'.mids[|s'.mids| - 1], true) in s'.replies
  {
    var k := |s.mids| - 1;
    InRange(u, k);
    assert SentBlock(u, s, k);
    var r := RequestFor(u, s.mids[k], k);
    a := ReceiveRequest(r, true);
    SliceFacts(u, s.mids[k], k);
    SoundKept(u, s, a);
    assert Handle(s.blocks, u.id, r.data, u.size, k, r.more) == (s.blocks, Outcome(Continue, None));
  }

  lemma NextBlock(u: Upload, s: System) returns (a: Action)
    requires Thrown(u, s) && |s.mids| < BlockCount(u) <= 0x1_0000
    requires Reply(s.mids[|s.mids| - 1], true) in s.replies
    ensures Enabled(u, s, a) && !IsFirstBlock(a)
    ensures Thrown(u, Act(u, s, a)) && |Act(u, s, a).mids| == |s.mids| + 1
  {
    var m := FreshMid(s.mids);
    a := ReceiveReply(Reply(s.mids[|s.mids| - 1], true), m);
    NextRequest(u, |s.mids| - 1, m);
    SoundKept(u, s, a);
  }

  lemma {:induction false} ThrownSpoils(u: Upload, s: System)
    requires Thrown(u, s) && BlockCount(u) <= 0x1_0000
    ensures CanBeSpoiled(u, s)
    decreases BlockCount(u) - |s.mids|
  {
    if |s.mids| == BlockCount(u) {
      var last := LastBlock(u, s);
      AlreadySpoiled(u, Act(u, s, last));
      Prepend(u, s, last);
    } else if Reply(s.mids[|s.mids| - 1], true) in s.replies {
      var go := NextBlock(u, s);
      ThrownSpoils(u, Act(u, s, go));
      Prepend(u, s, go);
    } else {
      var take := AnswerBlock(u, s);
      var s' := Act(u, s, take);
      var go := NextBlock(u, s');
      ThrownSpoils(u, Act(u, s', go));
      Prepend(u, s', go);
      Prepend(u, s, take);
    }
  }

  // ----- Two blocks ---------------------------------------------------------

  // After a late block 0 the last of two blocks is next in line again, and
  // delivers the payload a second time.
  lemma DeliveredTwice(u: Upload, s: System, actions: seq<Action>, t: System, late: Action, last: Action)
    requires Initial(u, s) && Reaches(u, s, actions, t, true) && BlockCount(u) == 2 && t.high == 1
    requires Enabled(u, t, late) && IsFirstBlock(late)
    requires Enabled(u, Act(u, t, late), last) && last.ReceiveRequest? && last.r.num == 1
    ensures Act(u, Act(u, t, late), last).delivered == [u.payload, u.payload]
  {
    TimelyState(u, s, actions, t);
    LateBlock(u, t, late);
    var t' := Act(u, t, late);
    assert InFlight(u, t', last.r);
    SliceFacts(u, last.r.mid, 1);
    SliceFacts(u, last.r.mid, 0);
  }

  lemma TwoBlocksSpoil(u: Upload, s: System, actions: seq<Action>, t: System, late: Action)
    requires Initial(u, s) && Reaches(u, s, actions, t, true) && BlockCount(u) == 2 && t.high == 1
    requires Enabled(u, t, late) && IsFirstBlock(late)
    ensures CanBeSpoiled(u, Act(u, t, late))
  {
    TimelyState(u, s, actions, t);
    LateBlock(u, t, late);
    var t' := Act(u, t, late);
    InRange(u, 1);
    assert SentBlock(u, t', 1);
    var last := ReceiveRequest(RequestFor(u, t'.mids[1], 1), true);
    DeliveredTwice(u, s, actions, t, late, last);
    AlreadySpoiled(u, Act(u, t', last));
    Prepend(u, t', last);
  }

  // ----- A sender that gave up ----------------------------------------------

  // Without the last block nothing is ever delivered.
  ghost predicate Stuck(u: Upload, s: System) {
    Sound(u, s) && !s.active && |s.mids| < BlockCount(u) && s.delivered == []
  }

  lemma {:induction false} StuckStays(u: Upload, s: System, actions: seq<Action>, t: System)
    requires Stuck(u, s) && Reaches(u, s, actions, t, false)
    ensures Stuck(u, t)
    decreases |actions|
  {
    if actions != [] {
      var a := actions[0];
      SoundKept(u, s, a);
      if a.ReceiveRequest? {
        assert InFlight(u, s, a.r);
        SliceFacts(u, a.r.mid, a.r.num);
      }
      StuckStays(u, Act(u, s, a), actions[1..], t);
    }
  }

  // ----- Theorem ------------------------------------------------------------

  lemma {:induction false} StaysTimely(u: Upload, s: System, actions: seq<Action>, t: System)
    requires u.size > 0 && Reaches(u, s, actions, t, false) && NoFirstBlock(actions)
    ensures Reaches(u, s, actions, t, true)
    decreases |actions|
  {
    if actions != [] {
      assert !IsFirstBlock(actions[0]);
      assert forall i :: 0 <= i < |actions| - 1 ==> actions[1..][i] == actions[i + 1];
      StaysTimely(u, Act(u, s, actions[0]), actions[1..], t);
    }
  }

  lemma EarlyIsHarmless(u: Upload, t: System, first: Action)
    requires InStep(u, t) && t.high <= 0 && Enabled(u, t, first) && IsFirstBlock(first)
    ensures !CanBeSpoiled(u, Act(u, t, first))
  {
    var t' := Act(u, t, first);
    InStepKept(u, t, first);
    forall more, end | Reaches(u, t', more, end, false) && NoFirstBlock(more) ensures !Spoiled(u, end) {
      StaysTimely(u, t', more, end);
      InStepAlways(u, t', more, end);
    }
  }

  lemma GivenUpIsHarmless(u: Upload, t: System, late: Action)
    requires InStep(u, t) && Enabled(u, t, late) && IsFirstBlock(late)
    requires !t.active && |t.mids| < BlockCount(u)
    ensures !CanBeSpoiled(u, Act(u, t, late))
  {
    var t' := Act(u, t, late);
    LateBlock(u, t, late);
    forall more, end | Reaches(u, t', more, end, false) && NoFirstBlock(more) ensures !Spoiled(u, end) {
      StuckStays(u, t', more, end);
    }
  }

  // The restriction on block 0 is exact. After any timely run, one more copy
  // of block 0 can lead to a wrong or a second delivery if and only if a later
  // block has been stored, and the last block was sent or can still be.
  lemma LateBlockSpoilsIff(u: Upload, s: System, actions: seq<Action>, t: System, copy: Action)
    requires Initial(u, s) && Reaches(u, s, actions, t, true) && BlockCount(u) <= 0x1_0000
    requires Enabled(u, t, copy) && IsFirstBlock(copy)
    ensures CanBeSpoiled(u, Act(u, t, copy)) <==> t.high >= 1 && (t.active || |t.mids| == BlockCount(u))
  {
    TimelyState(u, s, actions, t);
    if t.high <= 0 {
      EarlyIsHarmless(u, t, copy);
    } else if !t.active && |t.mids| < BlockCount(u) {
      GivenUpIsHarmless(u, t, copy);
    } else {
      CountBounds(u);
      if BlockCount(u) == 2 {
        TwoBlocksSpoil(u, s, actions, t, copy);
      } else {
        LateBlock(u, t, copy);
        ThrownSpoils(u, Act(u, t, copy));
      }
    }
  }
}
