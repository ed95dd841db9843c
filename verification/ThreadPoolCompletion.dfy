/** Handing requests back, cancelling them and calling their done callbacks keep the invariant. */
module ThreadPoolCompletion {
  import opened Keys
  import opened ThreadPool
  import opened ThreadPoolInvariants

  // ----- Handing back -----

  lemma AddCompleted(s: State, r: Req, l: nat)
    requires Placed(s) && BookOk(s) && l < |s.loops| && Completed(s.book, r, l)
    requires forall x :: Places(s, x) == if x in s.book.reqs && x != r then 1 else 0
    ensures Located(s.(loops := s.loops[l := s.loops[l].(completed := s.loops[l].completed + [r])]))
  {
    var loop := s.loops[l].(completed := s.loops[l].completed + [r]);
    var t := s.(loops := s.loops[l := loop]);
    assert LoopOk(s.book, s.loops[l], l);
    forall x ensures Places(t, x) == if x in s.book.reqs then 1 else 0 {
      assert Places(s, x) == if x in s.book.reqs && x != r then 1 else 0;
      TimesAppend(s.loops[l].completed, r, x);
      AtLoopsUpdate(s.loops, l, loop, x);
    }
  }

  lemma TakeFromWorker(s: State, i: nat, w: Worker)
    requires Located(s) && i < |s.workers| && s.workers[i].Busy? && !w.Busy?
    ensures var u := s.(workers := s.workers[i := w]);
      && Placed(u) && BookOk(u)
      && (forall x :: Places(u, x) == if x in s.book.reqs && x != s.workers[i].r then 1 else 0)
  {
    var u := s.(workers := s.workers[i := w]);
    forall x ensures Places(u, x) == if x in s.book.reqs && x != s.workers[i].r then 1 else 0 {
      assert Places(s, x) == if x in s.book.reqs then 1 else 0;
      AtWorkersUpdate(s.workers, i, w, x);
    }
  }

  lemma FinishLocated(s: State, i: nat)
    requires Located(s) && i < |s.workers| && s.workers[i].Busy?
    ensures Located(FinishWork(s, i))
  {
    var w := s.workers[i];
    var r, back := w.r, Returning(w.isSlow);
    assert w in s.workers;
    var q := s.book.reqs[r];
    var u := s.(workers := s.workers[i := back]);
    TakeFromWorker(s, i, back);
    var book := Book(s.book.reqs[r := q.(work := Cleared, linked := true)], s.book.cancelled, s.book.ran + multiset{r});
    NowhereKeepsPlaced(u, book, r);
    var v := u.(book := book);
    forall x ensures Places(v, x) == Places(u, x) {}
    AddCompleted(v, r, q.loop);
  }

  lemma FinishKeepsInv(s: State, i: nat)
    requires Inv(s) && i < |s.workers| && s.workers[i].Busy?
    ensures Inv(FinishWork(s, i))
  {
    FinishLocated(s, i);
    CountsUpdate(s.workers, i, Returning(s.workers[i].isSlow));
    assert Active(FinishWork(s, i).workers[i]);
  }

  // ----- Cancelling -----

  lemma {:induction false} NoWorkerHolds(ws: seq<Worker>, r: Req)
    requires forall w :: w in ws && w.Busy? ==> w.r != r
    ensures AtWorkers(ws, r) == 0
  {
    if ws != [] {
      NoWorkerHolds(ws[..|ws| - 1], r);
      assert ws[|ws| - 1] in ws;
    }
  }

  lemma {:induction false} NoLoopHolds(ls: seq<Loop>, r: Req)
    requires forall l :: 0 <= l < |ls| ==> NotAtLoop(ls[l], r)
    ensures AtLoops(ls, r) == 0
  {
    if ls != [] {
      var n := |ls| - 1;
      NoLoopHolds(ls[..n], r);
      assert NotAtLoop(ls[n], r);
      TimesMember(ls[n].completed, r);
      TimesMember(ls[n].finishing, r);
    }
  }

  lemma {:induction false} RemoveKeepsMarkers(wq: seq<Item>, r: Req)
    requires MarkersOnce(wq)
    ensures MarkersOnce(Remove(wq, Job(r)))
  {
    if wq != [] {
      var n := |wq| - 1;
      RemoveKeepsMarkers(wq[..n], r);
      RemoveMembers(wq[..n], Job(r));
      assert wq[n] == SlowMarker ==> SlowMarker !in wq[..n];
    }
  }

  /** A request that passes uv__work_cancel's test is linked into one of the queues. */
  lemma UnlinkedIsNowhere(s: State, r: Req, l: nat)
    requires Located(s) && Cancellable(s, r) && Finished(s.done, r) == 0
    requires s.book.reqs[r].loop == l < |s.loops| && s.loops[l].cancelling.None?
    ensures Places(Unlink(s, r, l), r) == 0
  {
    var t := Unlink(s, r, l);
    TimesRemove(s.wq, Job(r), Job(r));
    TimesRemove(s.slow, r, r);
    NoWorkerHolds(s.workers, r);
    RemoveMembers(s.loops[l].completed, r);
    RemoveMembers(s.loops[l].finishing, r);
    forall k | 0 <= k < |t.loops| ensures NotAtLoop(t.loops[k], r) {
      assert LoopOk(s.book, s.loops[k], k);
    }
    NoLoopHolds(t.loops, r);
  }

  lemma UnlinkSparesOthers(s: State, r: Req, l: nat, x: Req)
    requires l < |s.loops| && x != r
    ensures Places(Unlink(s, r, l), x) == Places(s, x)
  {
    TimesRemove(s.wq, Job(r), Job(x));
    TimesRemove(s.slow, r, x);
    TimesRemove(s.loops[l].completed, r, x);
    TimesRemove(s.loops[l].finishing, r, x);
    AtLoopsUpdate(s.loops, l, Unlink(s, r, l).loops[l], x);
  }

  lemma UnlinkPlaced(s: State, r: Req, l: nat)
    requires Placed(s) && l < |s.loops|
    ensures Placed(Unlink(s, r, l))
  {
    RemoveMembers(s.wq, Job(r));
    RemoveMembers(s.slow, r);
    RemoveMembers(s.loops[l].completed, r);
    RemoveMembers(s.loops[l].finishing, r);
    var t := Unlink(s, r, l);
    forall k | 0 <= k < |t.loops| ensures LoopOk(t.book, t.loops[k], k) {
      assert LoopOk(s.book, s.loops[k], k);
    }
  }

  lemma UnlinkScheduled(s: State, r: Req, l: nat)
    requires Scheduled(s) && l < |s.loops|
    ensures Scheduled(Unlink(s, r, l))
  {
    RemoveMembers(s.wq, Job(r));
    RemoveMembers(s.slow, r);
    RemoveKeepsMarkers(s.wq, r);
    assert MustWait(s) ==> MustWait(Unlink(s, r, l)) by {
      assert Remove<Item>([], Job(r)) == [] && [SlowMarker][..0] == [];
      assert Remove([SlowMarker], Job(r)) == [SlowMarker];
    }
  }

  lemma HoldCancelled(s: State, r: Req, l: nat)
    requires Placed(s) && BookOk(s) && l < |s.loops| && s.loops[l].cancelling.None?
    requires r in s.book.reqs && s.book.reqs[r].loop == l && s.book.reqs[r].work != Cleared && s.book.reqs[r].linked
    requires forall x :: Places(s, x) == if x in s.book.reqs && x != r then 1 else 0
    ensures Located(s.(book := s.book.(cancelled := s.book.cancelled + {r}), loops := s.loops[l := s.loops[l].(cancelling := Some(r))]))
  {
    var book := s.book.(cancelled := s.book.cancelled + {r});
    NowhereKeepsPlaced(s, book, r);
    var loop := s.loops[l].(cancelling := Some(r));
    var t := s.(book := book, loops := s.loops[l := loop]);
    assert LoopOk(book, s.loops[l], l);
    forall x ensures Places(t, x) == if x in book.reqs then 1 else 0 {
      assert Places(s, x) == if x in s.book.reqs && x != r then 1 else 0;
      AtLoopsUpdate(s.loops, l, loop, x);
    }
  }

  lemma CancelKeepsInv(s: State, r: Req, l: nat)
    requires Inv(s) && Enabled(s, CancelStep(r, l))
    ensures Inv(CancelBegin(s, r, l))
  {
    if Cancellable(s, r) {
      var t := Unlink(s, r, l);
      UnlinkedIsNowhere(s, r, l);
      UnlinkPlaced(s, r, l);
      UnlinkScheduled(s, r, l);
      forall x ensures Places(t, x) == if x in t.book.reqs && x != r then 1 else 0 {
        if x != r {
          UnlinkSparesOthers(s, r, l, x);
        }
      }
      HoldCancelled(t, r, l);
    }
  }

  /** The canceller lets go of the request. */
  lemma Unhold(s: State, l: nat)
    requires Located(s) && l < |s.loops| && s.loops[l].cancelling.Some?
    ensures var u := s.(loops := s.loops[l := s.loops[l].(cancelling := None)]);
      && Placed(u) && BookOk(u) && BeingCancelled(u.book, s.loops[l].cancelling.value, l)
      && (forall x :: Places(u, x) == if x in s.book.reqs && x != s.loops[l].cancelling.value then 1 else 0)
  {
    var loop := s.loops[l].(cancelling := None);
    var u := s.(loops := s.loops[l := loop]);
    assert LoopOk(s.book, s.loops[l], l);
    forall x ensures Places(u, x) == if x in s.book.reqs && x != s.loops[l].cancelling.value then 1 else 0 {
      assert Places(s, x) == if x in s.book.reqs then 1 else 0;
      AtLoopsUpdate(s.loops, l, loop, x);
    }
  }

  lemma MarkCancelled(u: State, r: Req, l: nat)
    requires l < |u.loops| && Placed(u) && BookOk(u) && BeingCancelled(u.book, r, l)
    requires forall x :: Places(u, x) == if x in u.book.reqs && x != r then 1 else 0
    ensures var v := u.(book := u.book.(reqs := u.book.reqs[r := u.book.reqs[r].(work := Cancelled, linked := true)]));
      Located(v.(loops := v.loops[l := v.loops[l].(completed := v.loops[l].completed + [r])]))
  {
    var book := u.book.(reqs := u.book.reqs[r := u.book.reqs[r].(work := Cancelled, linked := true)]);
    NowhereKeepsPlaced(u, book, r);
    var v := u.(book := book);
    forall x ensures Places(v, x) == Places(u, x) {}
    AddCompleted(v, r, l);
  }

  lemma CancelEndKeepsInv(s: State, l: nat)
    requires Inv(s) && l < |s.loops| && s.loops[l].cancelling.Some?
    ensures Inv(CancelEnd(s, l))
  {
    var u := s.(loops := s.loops[l := s.loops[l].(cancelling := None)]);
    var r := s.loops[l].cancelling.value;
    Unhold(s, l);
    MarkCancelled(u, r, l);
    var loop := u.loops[l].(completed := u.loops[l].completed + [r]);
    assert u.loops[l := loop] == s.loops[l := loop];
  }

  // ----- Done callbacks -----

  lemma TakeKeepsInv(s: State, l: nat)
    requires Inv(s) && Enabled(s, TakeStep(l))
    ensures Inv(TakeCompleted(s, l))
  {
    var t := TakeCompleted(s, l);
    assert LoopOk(s.book, s.loops[l], l);
    forall x ensures Places(t, x) == Places(s, x) {
      AtLoopsUpdate(s.loops, l, t.loops[l], x);
    }
  }

  lemma CallDoneKeepsInv(s: State, l: nat)
    requires Inv(s) && Enabled(s, DoneStep(l))
    ensures Inv(CallDone(s, l))
  {
    var t := CallDone(s, l);
    forall x ensures Places(t, x) == Places(s, x) {
      CallDonePlaces(s, l, x);
    }
    CallDonePlaced(s, l);
  }

  lemma CallDonePlaces(s: State, l: nat, x: Req)
    requires l < |s.loops| && s.loops[l].finishing != []
    ensures Places(CallDone(s, l), x) == Places(s, x)
  {
    var r := s.loops[l].finishing[0];
    TimesHead(s.loops[l].finishing, x);
    AtLoopsUpdate(s.loops, l, CallDone(s, l).loops[l], x);
    FinishedAppend(s.done, Outcome(r, StatusOf(s.book, r)), x);
  }

  lemma CallDonePlaced(s: State, l: nat)
    requires Placed(s) && l < |s.loops| && s.loops[l].finishing != []
    ensures Placed(CallDone(s, l))
  {
    var t := CallDone(s, l);
    var r := s.loops[l].finishing[0];
    assert LoopOk(s.book, s.loops[l], l) && r in s.loops[l].finishing;
    assert LoopOk(t.book, t.loops[l], l);
  }
}
