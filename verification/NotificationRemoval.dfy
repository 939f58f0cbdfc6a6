/** The steps that choose an awaiter and take it out of the chain keep the invariant.

    A removal reads the two neighbours, lets the one before skip the awaiter, lets the one after
    skip it, takes the waker and publishes the new phase. Between the two writes the forward
    chain is already shorter than the backward one.

    Each step has one lemma (`Keeps...`). The two writes are cut further, into what is written
    (`...Write`, `...Place`, `...Result`), the chains, the phases and the awaiter that leaves. */
module NotificationRemoval {
  import opened MachineIntegers
  import opened AwaiterQueue
  import opened NotificationProtocol
  import opened NotificationInvariant

  lemma KeepsUnregisterEnter(s: Machine, a: Id)
    requires Inv(s) && s.pc == UnregisterEnter(a)
    ensures Inv(TickUnregisterEnter(s, a))
  {
    if InPhase(s.mem, a, Waiting) {
      PcMoves(s, SpliceRead(a, false));
    } else {
      PcMoves(s, Unlocked);
    }
  }

  lemma KeepsNotifyEnter(s: Machine, priorOnly: bool, fromTail: bool)
    requires Inv(s) && s.pc == NotifyEnter(priorOnly)
    ensures Inv(TickNotifyEnter(s, priorOnly, fromTail))
  {
    assert Names(s.entries) == s.backward;
    if s.backward == [] {
      PcMoves(s, Unlocked);
    } else {
      var first, last := s.backward[0], s.backward[|s.backward| - 1];
      assert At(s.mem, first).Live? && first in s.backward && last in s.backward;
      if priorOnly && At(s.mem, first).generation >= s.generation {
        PcMoves(s, Unlocked);
      } else {
        PcMoves(s, SpliceRead(if !priorOnly && fromTail then last else first, true));
      }
    }
  }

  lemma KeepsSpliceRead(s: Machine, p: Id, notify: bool)
    requires Inv(s) && s.pc == SpliceRead(p, notify)
    ensures Inv(TickSpliceRead(s, p, notify))
  {
    var cell := At(s.mem, p);
    assert cell.Live? by {
      var i := IndexIn(s.backward, p);
      assert At(s.mem, s.backward[i]).Live?;
    }
    PcMoves(s, SplicePrev(p, notify, cell.prev, cell.next));
  }

  lemma ForwardShrinks(mem: Memory, names: seq<Id>, i: nat)
    requires Forward(mem, names) && AllDistinct(names) && i < |names|
    ensures Forward(WithNext(mem, Before(names, i), After(names, i)), RemoveAt(names, i))
  {
    var rest := RemoveAt(names, i);
    var mem' := WithNext(mem, Before(names, i), After(names, i));
    forall k | 0 <= k < |rest| ensures At(mem', rest[k]).Live? && At(mem', rest[k]).next == After(rest, k) {
      var j := if k < i then k else k + 1;
      assert rest[k] == names[j] && At(mem, names[j]).Live? && At(mem, names[j]).next == After(names, j);
      if i > 0 && j == i - 1 {
        assert At(mem', names[j]).next == After(names, i);
      } else {
        assert i > 0 ==> names[j] != names[i - 1];
        assert At(mem', names[j]) == At(mem, names[j]);
      }
    }
  }

  lemma BackwardShrinks(mem: Memory, names: seq<Id>, i: nat)
    requires Backward(mem, names) && AllDistinct(names) && i < |names|
    ensures Backward(WithPrev(mem, After(names, i), Before(names, i)), RemoveAt(names, i))
  {
    var rest := RemoveAt(names, i);
    var mem' := WithPrev(mem, After(names, i), Before(names, i));
    forall k | 0 <= k < |rest| ensures At(mem', rest[k]).Live? && At(mem', rest[k]).prev == Before(rest, k) {
      var j := if k < i then k else k + 1;
      assert rest[k] == names[j] && At(mem, names[j]).Live? && At(mem, names[j]).prev == Before(names, j);
      if j == i + 1 {
        assert At(mem', names[j]).prev == Before(names, i);
      } else {
        assert i + 1 < |names| ==> names[j] != names[i + 1];
        assert At(mem', names[j]) == At(mem, names[j]);
      }
    }
  }

  /** The memory after the write to the neighbour in front. */
  lemma {:induction false} SplicePrevWrite(
      mem: Memory, names: seq<Id>, i: nat, before: Option<Id>, after: Option<Id>, mem': Memory)
    requires Forward(mem, names) && Backward(mem, names) && AllDistinct(names) && i < |names|
    requires before == Before(names, i) && after == After(names, i)
    requires mem' == WithNext(mem, before, after)
    ensures Forward(mem', RemoveAt(names, i)) && Backward(mem', names)
    ensures First(RemoveAt(names, i)) == if before.None? then after else First(names)
  {
    ForwardShrinks(mem, names, i);
    if i > 0 { BackwardKept(mem, names[i - 1], At(mem, names[i - 1]).(next := after), names); }
  }

  /** Where the subject stands. */
  lemma {:induction false} SplicePrevPlace(
      s: Machine, p: Id, notify: bool, before: Option<Id>, after: Option<Id>, i: nat)
    requires ChainsHold(s) && SubjectKnown(s) && s.pc == SplicePrev(p, notify, before, after)
    requires i == IndexIn(s.backward, p)
    ensures Names(s.entries) == s.backward
    ensures i < |s.backward| == |s.entries| && s.backward[i] == s.entries[i].who == p
    ensures before == Before(s.backward, i) && after == After(s.backward, i)
    ensures before.Some? ==> At(s.mem, before.value).Live?
  {
    assert s.backward[i] == p;
    assert At(s.mem, p).prev == Before(s.backward, i);
    assert At(s.mem, p).next == After(s.backward, i);
    if i > 0 {
      var q := s.backward[i - 1];
      assert At(s.mem, q).Live?;
    }
  }

  /** The step in terms of that place. */
  lemma {:induction false} SplicePrevResult(
      s: Machine, p: Id, notify: bool, before: Option<Id>, after: Option<Id>, i: nat)
    requires ChainsHold(s) && SubjectKnown(s) && s.pc == SplicePrev(p, notify, before, after)
    requires i == IndexIn(s.backward, p)
    ensures Names(s.entries) == s.backward
    ensures i < |s.backward| == |s.entries| && s.backward[i] == s.entries[i].who == p
    ensures before == Before(s.backward, i) && after == After(s.backward, i)
    ensures before.Some? ==> At(s.mem, before.value).Live?
    ensures TickSplicePrev(s, p, notify, before, after)
            == s.(pc := SpliceNext(p, notify, before, after), entries := RemoveAt(s.entries, i),
                  head := if before.None? then after else s.head, mem := WithNext(s.mem, before, after))
  {
    SplicePrevPlace(s, p, notify, before, after, i);
    PositionIsUnique(s.entries, i);
    SplicePrevUnfolds(s, p, notify, before, after, i);
  }

  lemma {:induction false} SplicePrevUnfolds(
      s: Machine, p: Id, notify: bool, before: Option<Id>, after: Option<Id>, i: nat)
    requires i < |s.entries| && Position(s.entries, p) == i
    requires before.Some? ==> At(s.mem, before.value).Live?
    ensures TickSplicePrev(s, p, notify, before, after)
            == s.(pc := SpliceNext(p, notify, before, after), entries := RemoveAt(s.entries, i),
                  head := if before.None? then after else s.head, mem := WithNext(s.mem, before, after))
  {
  }

  lemma {:induction false} SplicePrevChains(
      s: Machine, p: Id, notify: bool, before: Option<Id>, after: Option<Id>, i: nat)
    requires ChainsHold(s) && SubjectKnown(s) && s.pc == SplicePrev(p, notify, before, after)
    requires i == IndexIn(s.backward, p)
    ensures ChainsHold(TickSplicePrev(s, p, notify, before, after))
  {
    var mem' := WithNext(s.mem, before, after);
    SplicePrevResult(s, p, notify, before, after, i);
    SpliceNames(s.entries, i);
    SpliceDescribes(s.mem, s.entries, s.latest, i);
    SplicePrevWrite(s.mem, s.backward, i, before, after, mem');
    if before.Some? {
      DescribedKept(s.mem, before.value, At(mem', before.value), RemoveAt(s.entries, i), s.latest);
    }
  }

  lemma {:induction false} SplicePrevPhases(
      s: Machine, p: Id, notify: bool, before: Option<Id>, after: Option<Id>, i: nat)
    requires ChainsHold(s) && PhasesHold(s) && SubjectKnown(s) && s.pc == SplicePrev(p, notify, before, after)
    requires i == IndexIn(s.backward, p)
    ensures PhasesHold(TickSplicePrev(s, p, notify, before, after))
  {
    var pc' := SpliceNext(p, notify, before, after);
    SplicePrevResult(s, p, notify, before, after, i);
    SpliceNames(s.entries, i);
    SplicePhases(s.mem, s.pc, pc', s.backward, i);
    PhasesRelinked(s.mem, before, after, pc', pc', RemoveAt(s.backward, i));
  }

  lemma {:induction false} SplicePrevSubject(
      s: Machine, p: Id, notify: bool, before: Option<Id>, after: Option<Id>, i: nat)
    requires ChainsHold(s) && PhasesHold(s) && SubjectKnown(s) && s.pc == SplicePrev(p, notify, before, after)
    requires i == IndexIn(s.backward, p)
    ensures var t := TickSplicePrev(s, p, notify, before, after); SubjectKnown(t) && t.fault == s.fault
  {
    SplicePrevResult(s, p, notify, before, after, i);
    assert Held(s, p);
    assert before != Some(p);
    RelinkedElsewhere(s.mem, before, after, p);
  }

  lemma KeepsSplicePrev(s: Machine, p: Id, notify: bool, before: Option<Id>, after: Option<Id>)
    requires Inv(s) && s.pc == SplicePrev(p, notify, before, after)
    ensures Inv(TickSplicePrev(s, p, notify, before, after))
  {
    var i := IndexIn(s.backward, p);
    SplicePrevChains(s, p, notify, before, after, i);
    SplicePrevPhases(s, p, notify, before, after, i);
    SplicePrevSubject(s, p, notify, before, after, i);
    SplicePrevResult(s, p, notify, before, after, i);
    BooksRelinked(s, TickSplicePrev(s, p, notify, before, after), before, after);
  }

  lemma {:induction false} SpliceNames(entries: seq<Entry<Id>>, i: nat)
    requires Distinct(entries) && i < |entries|
    ensures Distinct(RemoveAt(entries, i))
    ensures Names(RemoveAt(entries, i)) == RemoveAt(Names(entries), i)
    ensures Position(entries, entries[i].who) == i
  {
    PositionIsUnique(entries, i);
    var rest := RemoveAt(entries, i);
    forall j, k | 0 <= j < k < |rest| ensures rest[j].who != rest[k].who {
      assert rest[j] == entries[if j < i then j else j + 1];
      assert rest[k] == entries[if k < i then k else k + 1];
    }
    forall k | 0 <= k < |rest| ensures Names(rest)[k] == RemoveAt(Names(entries), i)[k] {
      assert rest[k] == entries[if k < i then k else k + 1];
    }
  }

  lemma SpliceDescribes(mem: Memory, entries: seq<Entry<Id>>, latest: map<Id, Waker>, i: nat)
    requires Described(mem, entries, latest) && i < |entries|
    ensures Described(mem, RemoveAt(entries, i), latest)
  {
    assert forall k :: 0 <= k < |entries| - 1 ==> RemoveAt(entries, i)[k] == entries[if k < i then k else k + 1];
  }

  lemma SplicePhases(mem: Memory, pc: Pc, pc': Pc, names: seq<Id>, i: nat)
    requires ChainWaits(mem, pc, names) && OnlyChainWaits(mem, pc, names) && AllDistinct(names)
    requires pc.SplicePrev? && pc'.SpliceNext? && i < |names| && names[i] == pc.p == pc'.p
    ensures ChainWaits(mem, pc', RemoveAt(names, i)) && OnlyChainWaits(mem, pc', RemoveAt(names, i))
  {
    var rest := RemoveAt(names, i);
    RemovalKeepsOthers(names, i);
    forall k | 0 <= k < |rest| ensures InPhase(mem, rest[k], Waiting) {
      assert rest[k] == names[if k < i then k else k + 1];
    }
  }

  lemma RemovalStaysDistinct(names: seq<Id>, i: nat)
    requires AllDistinct(names) && i < |names|
    ensures AllDistinct(RemoveAt(names, i)) && names[i] !in RemoveAt(names, i)
    ensures Last(RemoveAt(names, i)) == if After(names, i).None? then Before(names, i) else Last(names)
  {
  }

  lemma {:induction false} SpliceNextWrite(
      mem: Memory, names: seq<Id>, i: nat, before: Option<Id>, after: Option<Id>, mem': Memory)
    requires i < |names| && AllDistinct(names) && Forward(mem, RemoveAt(names, i)) && Backward(mem, names)
    requires before == Before(names, i) && after == After(names, i)
    requires mem' == WithPrev(mem, after, before)
    ensures var rest := RemoveAt(names, i);
            && Forward(mem', rest) && Backward(mem', rest) && AllDistinct(rest) && names[i] !in rest
            && Last(rest) == if after.None? then before else Last(names)
  {
    BackwardShrinks(mem, names, i);
    RemovalStaysDistinct(names, i);
    if i + 1 < |names| {
      var q := names[i + 1];
      assert At(mem, q).Live?;
      ForwardKept(mem, q, At(mem, q).(prev := before), RemoveAt(names, i));
    }
  }

  lemma {:induction false} SpliceNextPlace(
      s: Machine, p: Id, notify: bool, before: Option<Id>, after: Option<Id>, i: nat)
    requires ChainsMatch(s.pc, Names(s.entries), s.backward) && Backward(s.mem, s.backward)
    requires s.pc == SpliceNext(p, notify, before, after) && i == IndexIn(s.backward, p)
    ensures i < |s.backward| && s.backward[i] == p && Names(s.entries) == RemoveAt(s.backward, i)
    ensures before == Before(s.backward, i) && after == After(s.backward, i)
    ensures after.Some? ==> At(s.mem, after.value).Live?
  {
    if i + 1 < |s.backward| {
      var q := s.backward[i + 1];
      assert At(s.mem, q).Live?;
    }
  }

  lemma {:induction false} SpliceNextResult(
      s: Machine, p: Id, notify: bool, before: Option<Id>, after: Option<Id>, i: nat)
    requires ChainsHold(s) && s.pc == SpliceNext(p, notify, before, after)
    requires i == IndexIn(s.backward, p)
    ensures i < |s.backward| && s.backward[i] == p && Names(s.entries) == RemoveAt(s.backward, i)
    ensures before == Before(s.backward, i) && after == After(s.backward, i)
    ensures after.Some? ==> At(s.mem, after.value).Live?
    ensures TickSpliceNext(s, p, notify, before, after)
            == s.(pc := TakeWaker(p, notify), backward := RemoveAt(s.backward, i),
                  tail := if after.None? then before else s.tail, mem := WithPrev(s.mem, after, before))
  {
    SpliceNextPlace(s, p, notify, before, after, i);
  }

  lemma {:induction false} SpliceNextChains(
      s: Machine, p: Id, notify: bool, before: Option<Id>, after: Option<Id>, i: nat)
    requires ChainsHold(s) && s.pc == SpliceNext(p, notify, before, after)
    requires i == IndexIn(s.backward, p)
    ensures ChainsHold(TickSpliceNext(s, p, notify, before, after))
    ensures p !in TickSpliceNext(s, p, notify, before, after).backward
  {
    var mem' := WithPrev(s.mem, after, before);
    SpliceNextResult(s, p, notify, before, after, i);
    SpliceNextWrite(s.mem, s.backward, i, before, after, mem');
    if after.Some? {
      DescribedKept(s.mem, after.value, At(mem', after.value), s.entries, s.latest);
    }
  }

  lemma {:induction false} SpliceNextPhases(
      s: Machine, p: Id, notify: bool, before: Option<Id>, after: Option<Id>, t: Machine)
    requires PhasesHold(s) && s.pc == SpliceNext(p, notify, before, after)
    requires t.entries == s.entries && t.pc == TakeWaker(p, notify) && t.mem == WithPrev(s.mem, after, before)
    ensures PhasesHold(t)
  {
    PhasesRelinked(s.mem, after, before, s.pc, t.pc, Names(s.entries));
  }

  lemma {:induction false} SpliceNextSubject(
      s: Machine, p: Id, notify: bool, before: Option<Id>, after: Option<Id>, i: nat)
    requires ChainsHold(s) && SubjectKnown(s) && s.pc == SpliceNext(p, notify, before, after)
    requires i == IndexIn(s.backward, p)
    requires p !in TickSpliceNext(s, p, notify, before, after).backward
    ensures var t := TickSpliceNext(s, p, notify, before, after); SubjectKnown(t) && t.fault == s.fault
  {
    SpliceNextResult(s, p, notify, before, after, i);
    assert after != Some(p);
    RelinkedElsewhere(s.mem, after, before, p);
  }

  lemma KeepsSpliceNext(s: Machine, p: Id, notify: bool, before: Option<Id>, after: Option<Id>)
    requires Inv(s) && s.pc == SpliceNext(p, notify, before, after)
    ensures Inv(TickSpliceNext(s, p, notify, before, after))
  {
    var i := IndexIn(s.backward, p);
    SpliceNextChains(s, p, notify, before, after, i);
    SpliceNextSubject(s, p, notify, before, after, i);
    SpliceNextResult(s, p, notify, before, after, i);
    SpliceNextPhases(s, p, notify, before, after, TickSpliceNext(s, p, notify, before, after));
    BooksRelinked(s, TickSpliceNext(s, p, notify, before, after), after, before);
  }

  lemma KeepsTakeWaker(s: Machine, p: Id, notify: bool)
    requires Inv(s) && s.pc == TakeWaker(p, notify)
    ensures Inv(TickTakeWaker(s, p, notify))
  {
    var t := TickTakeWaker(s, p, notify);
    var cell := At(s.mem, p).(waker := None);
    ForwardKept(s.mem, p, cell, s.backward);
    BackwardKept(s.mem, p, cell, s.backward);
    DescribedKept(s.mem, p, cell, s.entries, s.latest);
    PhasesKept(s.mem, p, cell, s.pc, t.pc, s.backward);
    BooksKept(s, t, p);
  }

  lemma DeparturePhases(mem: Memory, pc: Pc, pc': Pc, names: seq<Id>, cell: Cell)
    requires ChainWaits(mem, pc, names) && OnlyChainWaits(mem, pc, names)
    requires pc.Publish? && pc.p !in names && cell.Live? && cell.phase != Waiting
    requires pc'.Return? || pc'.Unlocked?
    ensures ChainWaits(mem[pc.p := cell], pc', names) && OnlyChainWaits(mem[pc.p := cell], pc', names)
  {
    var mem' := mem[pc.p := cell];
    forall i | 0 <= i < |names| ensures InPhase(mem', names[i], Waiting) {
      assert InPhase(mem, names[i], Waiting);
    }
    forall b | InPhase(mem', b, Waiting) ensures b in names && !Arriving(pc', b) {
      assert InPhase(mem, b, Waiting) && b != pc.p;
    }
  }

  lemma KeepsPublish(s: Machine, p: Id, notify: bool, taken: Option<Waker>)
    requires Inv(s) && s.pc == Publish(p, notify, taken)
    ensures Inv(TickPublish(s, p, notify, taken))
  {
    var t := TickPublish(s, p, notify, taken);
    var cell := At(t.mem, p);
    ForwardKept(s.mem, p, cell, s.backward);
    BackwardKept(s.mem, p, cell, s.backward);
    DescribedKept(s.mem, p, cell, s.entries, s.latest);
    DeparturePhases(s.mem, s.pc, t.pc, s.backward, cell);
    PublishBooks(s, t, p, if notify then Notification(p) else Unregistered(p));
  }

  lemma ReturnBooks(s: Machine, t: Machine, p: Id)
    requires BooksHold(s) && s.pc.Return? && s.pc.p == p
    requires t.mem == s.mem && t.pc.Unlocked? && t.log == s.log + multiset{Woken(p)}
    ensures BooksHold(t)
  {
    forall b ensures Balanced(t, b) {
      assert Balanced(s, b);
    }
  }

  lemma KeepsReturn(s: Machine, p: Id, taken: Option<Waker>)
    requires Inv(s) && s.pc == Return(p, taken)
    ensures Inv(TickReturn(s, p, taken))
  {
    var t := TickReturn(s, p, taken);
    PhasesCarried(s.mem, s.pc, t.pc, s.backward);
    ReturnBooks(s, t, p);
  }
}
