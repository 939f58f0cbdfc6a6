/** The steps of a registration keep the invariant.

    A new awaiter gets its fields, is linked behind the tail and becomes the tail, so that the
    forward chain has it one step before the backward one; it is published as waiting last.

    Each step has one lemma (`Keeps...`), which relies on what single writes keep (module
    NotificationInvariant). */
module NotificationRegistration {
  import opened MachineIntegers
  import opened AwaiterQueue
  import opened NotificationProtocol
  import opened NotificationInvariant

  lemma KeepsRewake(s: Machine, a: Id, w: Waker)
    requires Inv(s) && s.pc == RegisterEnter(a, w) && InPhase(s.mem, a, Waiting)
    ensures Inv(TickRegisterEnter(s, a, w))
  {
    var t := TickRegisterEnter(s, a, w);
    var cell := At(s.mem, a).(waker := Some(w));
    var i := IndexIn(s.backward, a);
    assert i < |s.entries| && s.entries[i].who == a;
    PositionIsUnique(s.entries, i);
    assert t == s.(mem := s.mem[a := cell], pc := Unlocked, latest := s.latest[a := w],
                   entries := s.entries[i := s.entries[i].(waker := w)]);
    DescribedRewaked(s.mem, cell, s.entries, s.latest, i, w);
    ForwardKept(s.mem, a, cell, s.backward);
    BackwardKept(s.mem, a, cell, s.backward);
    PhasesKept(s.mem, a, cell, s.pc, t.pc, s.backward);
    BooksKept(s, t, a);
  }

  lemma KeepsRegisterEnter(s: Machine, a: Id, w: Waker)
    requires Inv(s) && s.pc == RegisterEnter(a, w)
    ensures Inv(TickRegisterEnter(s, a, w))
  {
    if InPhase(s.mem, a, Waiting) {
      KeepsRewake(s, a, w);
    } else {
      PcMoves(s, RegisterFields(a, w));
    }
  }

  lemma KeepsRegisterFields(s: Machine, a: Id, w: Waker)
    requires Inv(s) && s.pc == RegisterFields(a, w)
    ensures Inv(TickRegisterFields(s, a, w))
  {
    var t := TickRegisterFields(s, a, w);
    var cell := Live(Idle, Some(w), None, s.tail, s.generation);
    NotOnChain(s, a);
    ForwardKept(s.mem, a, cell, s.backward);
    BackwardKept(s.mem, a, cell, s.backward);
    DescribedKept(s.mem, a, cell, s.entries, s.latest);
    PhasesKept(s.mem, a, cell, s.pc, t.pc, s.backward);
    BooksKept(s, t, a);
  }

  lemma ForwardGrows(mem: Memory, names: seq<Id>, a: Id)
    requires Forward(mem, names) && a !in names && AllDistinct(names)
    requires At(mem, a).Live? && At(mem, a).next == None
    ensures Forward(WithNext(mem, Last(names), Some(a)), names + [a])
  {
    var mem' := WithNext(mem, Last(names), Some(a));
    var longer := names + [a];
    forall k | 0 <= k < |longer| ensures At(mem', longer[k]).Live? && At(mem', longer[k]).next == After(longer, k) {
      if k < |names| {
        assert longer[k] == names[k] && At(mem, names[k]).Live?;
        assert k + 1 < |names| ==> names[k] != names[|names| - 1];
      }
    }
  }

  lemma {:induction false} NamesGrow(entries: seq<Entry<Id>>, e: Entry<Id>)
    requires Distinct(entries) && e.who !in Names(entries)
    ensures Distinct(entries + [e]) && Names(entries + [e]) == Names(entries) + [e.who]
    ensures Position(entries, e.who) == |entries|
  {
    forall i | 0 <= i < |entries| ensures entries[i].who != e.who {
      assert Names(entries)[i] == entries[i].who;
    }
    FirstPosition(entries, |entries|, e.who);
    var longer := entries + [e];
    forall i, j | 0 <= i < j < |longer| ensures longer[i].who != longer[j].who {
      assert longer[i] == entries[i] && (j < |entries| ==> longer[j] == entries[j]);
    }
    forall i | 0 <= i < |longer| ensures Names(longer)[i] == (Names(entries) + [e.who])[i] {
      assert i < |entries| ==> longer[i] == entries[i];
    }
  }

  lemma DescribedGrows(mem: Memory, entries: seq<Entry<Id>>, latest: map<Id, Waker>, e: Entry<Id>)
    requires Described(mem, entries, latest) && e.who !in Names(entries)
    requires At(mem, e.who).Live? && At(mem, e.who).waker == Some(e.waker) && At(mem, e.who).generation == e.generation
    ensures Described(mem, entries + [e], latest[e.who := e.waker])
  {
    var longer := entries + [e];
    forall i | 0 <= i < |entries| ensures longer[i] == entries[i] && entries[i].who != e.who {
      assert Names(entries)[i] == entries[i].who;
    }
  }

  lemma {:induction false} RegisterLinkResult(s: Machine, a: Id, w: Waker)
    requires ChainsHold(s) && s.pc == RegisterLink(a, w) && a !in Names(s.entries)
    ensures Names(s.entries) == s.backward
    ensures s.tail.Some? ==> At(s.mem, s.tail.value).Live?
    ensures TickRegisterLink(s, a, w)
            == s.(pc := RegisterTail(a, w), latest := s.latest[a := w],
                  entries := s.entries + [Entry(a, w, s.generation)],
                  head := if s.tail.None? then Some(a) else s.head, mem := WithNext(s.mem, s.tail, Some(a)))
  {
    assert s.backward != [] ==> At(s.mem, s.backward[|s.backward| - 1]).Live?;
    NamesGrow(s.entries, Entry(a, w, s.generation));
  }

  lemma {:induction false} RegisterLinkChains(s: Machine, a: Id, w: Waker)
    requires ChainsHold(s) && SubjectKnown(s) && s.pc == RegisterLink(a, w) && a !in Names(s.entries)
    ensures ChainsHold(TickRegisterLink(s, a, w))
  {
    RegisterLinkResult(s, a, w);
    ForwardGrows(s.mem, s.backward, a);
    NamesGrow(s.entries, Entry(a, w, s.generation));
    DescribedGrows(s.mem, s.entries, s.latest, Entry(a, w, s.generation));
    if s.tail.Some? {
      var cell := At(s.mem, s.tail.value).(next := Some(a));
      BackwardKept(s.mem, s.tail.value, cell, s.backward);
      DescribedKept(s.mem, s.tail.value, cell, s.entries + [Entry(a, w, s.generation)], s.latest[a := w]);
    }
  }

  lemma {:induction false} RegisterLinkPhases(s: Machine, a: Id, w: Waker)
    requires ChainsHold(s) && PhasesHold(s) && SubjectKnown(s) && s.pc == RegisterLink(a, w) && a !in Names(s.entries)
    ensures PhasesHold(TickRegisterLink(s, a, w))
  {
    RegisterLinkResult(s, a, w);
    NamesGrow(s.entries, Entry(a, w, s.generation));
    ArrivingPhases(s.mem, s.pc, RegisterTail(a, w), s.backward, a);
    PhasesRelinked(s.mem, s.tail, Some(a), RegisterTail(a, w), RegisterTail(a, w), s.backward + [a]);
  }

  lemma ArrivingPhases(mem: Memory, pc: Pc, pc': Pc, names: seq<Id>, a: Id)
    requires ChainWaits(mem, pc, names) && OnlyChainWaits(mem, pc, names)
    requires pc.RegisterLink? && pc'.RegisterTail? && pc'.a == a && !InPhase(mem, a, Waiting)
    ensures ChainWaits(mem, pc', names + [a]) && OnlyChainWaits(mem, pc', names + [a])
  {
    forall i | 0 <= i < |names + [a]|
      ensures Arriving(pc', (names + [a])[i]) || InPhase(mem, (names + [a])[i], Waiting)
    {
      assert i < |names| ==> InPhase(mem, names[i], Waiting);
    }
  }

  lemma {:induction false} RegisterLinkSubject(s: Machine, a: Id, w: Waker)
    requires ChainsHold(s) && SubjectKnown(s) && s.pc == RegisterLink(a, w) && a !in Names(s.entries)
    ensures var t := TickRegisterLink(s, a, w); SubjectKnown(t) && t.fault == s.fault
  {
    RegisterLinkResult(s, a, w);
    assert s.tail != Some(a) by { assert s.backward != [] ==> s.backward[|s.backward| - 1] in s.backward; }
    RelinkedElsewhere(s.mem, s.tail, Some(a), a);
  }

  lemma KeepsRegisterLink(s: Machine, a: Id, w: Waker)
    requires Inv(s) && s.pc == RegisterLink(a, w)
    ensures Inv(TickRegisterLink(s, a, w))
  {
    NotOnChain(s, a);
    RegisterLinkChains(s, a, w);
    RegisterLinkPhases(s, a, w);
    RegisterLinkSubject(s, a, w);
    RegisterLinkResult(s, a, w);
    BooksRelinked(s, TickRegisterLink(s, a, w), s.tail, Some(a));
  }

  lemma BackwardGrows(mem: Memory, names: seq<Id>, a: Id)
    requires Backward(mem, names) && AllDistinct(names) && a !in names
    requires At(mem, a).Live? && At(mem, a).prev == Last(names)
    ensures Backward(mem, names + [a]) && AllDistinct(names + [a]) && a in names + [a]
  {
    assert (names + [a])[|names|] == a;
  }

  lemma KeepsRegisterTail(s: Machine, a: Id, w: Waker)
    requires Inv(s) && s.pc == RegisterTail(a, w)
    ensures Inv(TickRegisterTail(s, a, w))
  {
    var t := TickRegisterTail(s, a, w);
    PhasesCarried(s.mem, s.pc, t.pc, t.backward);
    BackwardGrows(s.mem, s.backward, a);
    BooksUntouched(s, t);
  }

  lemma ArrivalPhases(mem: Memory, pc: Pc, names: seq<Id>)
    requires ChainWaits(mem, pc, names) && OnlyChainWaits(mem, pc, names)
    requires pc.RegisterPublish? && pc.a in names && At(mem, pc.a).Live?
    ensures var mem' := mem[pc.a := At(mem, pc.a).(phase := Waiting)];
            ChainWaits(mem', Unlocked, names) && OnlyChainWaits(mem', Unlocked, names)
  {
    var mem' := mem[pc.a := At(mem, pc.a).(phase := Waiting)];
    forall b | InPhase(mem', b, Waiting) ensures b in names {
      assert b != pc.a ==> InPhase(mem, b, Waiting);
    }
  }

  lemma KeepsRegisterPublish(s: Machine, a: Id, w: Waker)
    requires Inv(s) && s.pc == RegisterPublish(a, w)
    ensures Inv(TickRegisterPublish(s, a))
  {
    var t := TickRegisterPublish(s, a);
    var cell := At(s.mem, a).(phase := Waiting);
    ForwardKept(s.mem, a, cell, s.backward);
    BackwardKept(s.mem, a, cell, s.backward);
    DescribedKept(s.mem, a, cell, s.entries, s.latest);
    ArrivalPhases(s.mem, s.pc, s.backward);
    PublishBooks(s, t, a, Registered(a));
  }
}
