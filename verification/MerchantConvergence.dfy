/**
 Delivery order. The sender may deliver events in any order and any number of
 times; this module says exactly when the mirrored status does not depend on it.
 */
module MerchantConvergence {
  import opened Options
  import opened MerchantEvents

  ghost function Delivered(s: seq<Event>): set<Event> {
    set e | e in s
  }

  /** The sender never reuses an event id for another event. */
  ghost predicate OneEventPerId(es: set<Event>) {
    forall a, b :: a in es && b in es && a.id == b.id ==> a == b
  }

  ghost predicate Mixes(es: set<Event>, tx: string) {
    && (exists e :: e in es && e.transactionId == tx && Next(e) == Completed)
    && (exists e :: e in es && e.transactionId == tx && Cancellation(Next(e)))
  }

  /** A status up to the choice of cancellation word. */
  ghost function Word(status: Status): Status {
    if Cancellation(status) then Cancelled else status
  }

  /** The mirrored status up to the choice of cancellation word, if the transfer is known at all. */
  ghost function Final(s: seq<Event>, tx: string): Option<Status> {
    var db := Replay(EMPTY, s);
    if tx in db.states then Some(Word(db.states[tx].status)) else None
  }

  /** Every receipt belongs to a delivered event. */
  ghost predicate ReceiptsDelivered(s: seq<Event>, db: Database) {
    forall id :: id in db.inbox ==> exists e :: e in s && e.id == id
  }

  /** The mirror stands at the highest status its events asked for, and one of them asked for it. */
  ghost predicate Summit(s: seq<Event>, db: Database, tx: string) {
    if tx !in db.states then forall e :: e in s ==> e.transactionId != tx
    else
      && (forall e :: e in s && e.transactionId == tx ==> Height(Next(e)) <= Height(db.states[tx].status))
      && (exists e :: e in s && e.transactionId == tx && Word(Next(e)) == Word(db.states[tx].status))
  }

  lemma ReceiptsStep(s: seq<Event>, db: Database, e: Event)
    requires ReceiptsDelivered(s, db)
    ensures ReceiptsDelivered(s + [e], Step(db, e))
  {
    var after := Step(db, e);
    assert e in s + [e];
    forall id | id in after.inbox ensures exists x :: x in s + [e] && x.id == id {
      if id in db.inbox {
        var x :| x in s && x.id == id;
        assert x in s + [e];
      }
    }
  }

  /** An event whose id is already in the inbox was delivered before, so it adds nothing. */
  lemma SummitOnDuplicate(s: seq<Event>, db: Database, e: Event, tx: string)
    requires ReceiptsDelivered(s, db) && Summit(s, db, tx) && e.id in db.inbox
    requires OneEventPerId(Delivered(s + [e]))
    ensures Summit(s + [e], Step(db, e), tx)
  {
    var same :| same in s && same.id == e.id;
    assert same in Delivered(s + [e]) && e in Delivered(s + [e]);
    assert forall x :: x in s + [e] <==> x in s;
  }

  lemma SummitOnFirst(s: seq<Event>, db: Database, e: Event)
    requires Summit(s, db, e.transactionId) && e.id !in db.inbox && e.transactionId !in db.states
    ensures Summit(s + [e], Step(db, e), e.transactionId)
  {
    assert e in s + [e];
  }

  lemma SummitOnNew(s: seq<Event>, db: Database, e: Event)
    requires Summit(s, db, e.transactionId) && e.id !in db.inbox && e.transactionId in db.states
    requires !Mixes(Delivered(s + [e]), e.transactionId)
    ensures Summit(s + [e], Step(db, e), e.transactionId)
  {
    var current := db.states[e.transactionId].status;
    var top :| top in s && top.transactionId == e.transactionId && Word(Next(top)) == Word(current);
    assert top in Delivered(s + [e]) && e in Delivered(s + [e]);
    assert !Contradicts(current, Next(e));
    assert top in s + [e] && e in s + [e];
    assert Step(db, e).states[e.transactionId].status == if Ignores(current, Next(e)) then current else Next(e);
  }

  lemma SummitElsewhere(s: seq<Event>, db: Database, e: Event, tx: string)
    requires Summit(s, db, tx) && tx != e.transactionId
    ensures Summit(s + [e], Step(db, e), tx)
  {
    if tx in db.states {
      var top :| top in s && top.transactionId == tx && Word(Next(top)) == Word(db.states[tx].status);
      assert top in s + [e];
    }
  }

  lemma NothingDelivered(tx: string)
    ensures ReceiptsDelivered([], EMPTY) && Summit([], EMPTY, tx)
  {
  }

  lemma {:induction false} UnmixedReachesSummit(s: seq<Event>, tx: string)
    requires OneEventPerId(Delivered(s)) && !Mixes(Delivered(s), tx)
    ensures ReceiptsDelivered(s, Replay(EMPTY, s)) && Summit(s, Replay(EMPTY, s), tx)
  {
    hide Decide, Summit, ReceiptsDelivered, Next, Install;
    if s == [] {
      NothingDelivered(tx);
    } else {
      var earlier, e := s[..|s| - 1], s[|s| - 1];
      assert s == earlier + [e];
      assert Delivered(earlier) <= Delivered(s);
      UnmixedReachesSummit(earlier, tx);
      var db := Replay(EMPTY, earlier);
      ReceiptsStep(earlier, db, e);
      if e.transactionId != tx {
        SummitElsewhere(earlier, db, e, tx);
      } else if e.id in db.inbox {
        SummitOnDuplicate(earlier, db, e, tx);
      } else if tx in db.states {
        SummitOnNew(earlier, db, e);
      } else {
        SummitOnFirst(earlier, db, e);
      }
    }
  }

  /** Two sequences with the same events of a transfer, both at their summit, show the same status. */
  lemma SummitsAgree(a: seq<Event>, b: seq<Event>, tx: string)
    requires Summit(a, Replay(EMPTY, a), tx) && Summit(b, Replay(EMPTY, b), tx) && !Mixes(Delivered(a), tx)
    requires forall e: Event :: e.transactionId == tx ==> (e in a <==> e in b)
    ensures Final(a, tx) == Final(b, tx)
  {
    hide Replay;
    var p, q := Replay(EMPTY, a), Replay(EMPTY, b);
    if tx in p.states {
      var top :| top in a && top.transactionId == tx && Word(Next(top)) == Word(p.states[tx].status);
      assert top in b;
    }
    if tx in q.states {
      var peak :| peak in b && peak.transactionId == tx && Word(Next(peak)) == Word(q.states[tx].status);
      var top :| top in a && top.transactionId == tx && Word(Next(top)) == Word(p.states[tx].status);
      assert peak in a && top in b && peak in Delivered(a) && top in Delivered(a);
      assert Height(p.states[tx].status) == Height(q.states[tx].status);
    }
  }

  /** Two deliveries of the same events, in any order and with any repetition, end in the same status. */
  lemma DeliveryOrderDoesNotMatter(a: seq<Event>, b: seq<Event>, tx: string)
    requires Delivered(a) == Delivered(b)
    requires OneEventPerId(Delivered(a)) && !Mixes(Delivered(a), tx)
    ensures Final(a, tx) == Final(b, tx)
  {
    hide Replay, Summit, Final;
    UnmixedReachesSummit(a, tx);
    UnmixedReachesSummit(b, tx);
    assert forall e :: e in a <==> e in Delivered(a);
    assert forall e :: e in b <==> e in Delivered(b);
    SummitsAgree(a, b, tx);
  }

  /** The first terminal event of a transfer decides it, word for word, whatever is delivered afterwards. */
  lemma FirstTerminalEventWins(before: seq<Event>, e: Event, rest: seq<Event>)
    requires Terminal(Next(e))
    requires forall x :: x in before ==> x.id != e.id
    requires forall x :: x in before && x.transactionId == e.transactionId ==> !Terminal(Next(x))
    ensures var db := Replay(EMPTY, before + [e] + rest);
            e.transactionId in db.states && db.states[e.transactionId].status == Next(e)
  {
    StillOpen(before, e);
    ReplayAppends(EMPTY, before + [e], rest);
    assert (before + [e])[..|before|] == before;
    HistoryOnlyClimbs(Replay(EMPTY, before + [e]), rest);
  }

  lemma {:induction false} StillOpen(s: seq<Event>, e: Event)
    requires forall x :: x in s ==> x.id != e.id
    requires forall x :: x in s && x.transactionId == e.transactionId ==> !Terminal(Next(x))
    ensures e.id !in Replay(EMPTY, s).inbox
    ensures e.transactionId in Replay(EMPTY, s).states ==> !Terminal(Replay(EMPTY, s).states[e.transactionId].status)
  {
    if s != [] {
      StillOpen(s[..|s| - 1], e);
      assert s[|s| - 1] in s;
    }
  }

  lemma {:induction false} Listed(es: set<Event>) returns (s: seq<Event>)
    ensures Delivered(s) == es
  {
    if es == {} {
      s := [];
    } else {
      var e :| e in es;
      s := Listed(es - {e});
      s := s + [e];
      assert es == (es - {e}) + {e};
    }
  }

  lemma MixedOrdersDisagree(es: set<Event>, tx: string) returns (a: seq<Event>, b: seq<Event>)
    requires Mixes(es, tx)
    ensures Delivered(a) == es && Delivered(b) == es && Final(a, tx) != Final(b, tx)
  {
    var c :| c in es && c.transactionId == tx && Next(c) == Completed;
    var x :| x in es && x.transactionId == tx && Cancellation(Next(x));
    var s := Listed(es);
    assert forall e :: e in s <==> e in es by {
      assert forall e :: e in s <==> e in Delivered(s);
    }
    a, b := [] + [c] + s, [] + [x] + s;
    FirstTerminalEventWins([], c, s);
    FirstTerminalEventWins([], x, s);
  }

  /**
   Convergence, exactly: every order and repetition of a set of events ends in
   the same status, up to the cancellation word, if and only if the set does
   not hold both a completion and a cancellation of the transfer.
   */
  lemma ConvergesExactlyWhenUnmixed(es: set<Event>, tx: string)
    requires OneEventPerId(es)
    ensures (forall a, b :: Delivered(a) == es && Delivered(b) == es ==> Final(a, tx) == Final(b, tx))
            <==> !Mixes(es, tx)
  {
    hide Final;
    if Mixes(es, tx) {
      var a, b := MixedOrdersDisagree(es, tx);
    } else {
      forall a, b | Delivered(a) == es && Delivered(b) == es ensures Final(a, tx) == Final(b, tx) {
        DeliveryOrderDoesNotMatter(a, b, tx);
      }
    }
  }
}
