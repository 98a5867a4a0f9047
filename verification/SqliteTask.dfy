/** The loop behind one SQLite subscription, over query results and messages. */
module SqliteTask {
  import opened Prelude
  import opened Sequences
  import opened MutationLog
  import opened SqliteSubscription
  import O = SqliteOverlap

  function SendAll(sub: Sub, rows: seq<Row>): (r: Sub)
    ensures r.buffer == sub.buffer
  {
    if rows == [] then sub else Send(SendAll(sub, rows[..|rows| - 1]), rows[|rows| - 1])
  }

  /** The first `n` rows of `b` have been sent and the rest are to come. */
  function Delivered(s: State, b: seq<Row>, n: nat): (r: State)
    requires n <= |b|
  {
    s.(sub := SendAll(s.sub, b[..n]).(buffer := b[n..]))
  }

  /** Delivering a buffer step by step is sending its rows. */
  lemma {:induction false} DeliverSome(s: State, n: nat)
    requires !s.sub.querying && n <= |s.sub.buffer|
    ensures Run(s, O.Repeat(Deliver, n)) == Delivered(s, s.sub.buffer, n)
  {
    var b := s.sub.buffer;
    if n == 0 {
      assert O.Repeat(Deliver, 0) == [] && b[..0] == [] && b[0..] == b;
      return;
    }
    hide Next, Run, SendAll, Delivered;
    DeliverSome(s, n - 1);
    O.RunRepeat(s, Deliver, n - 1);
    DeliverOne(s, b, n - 1);
  }

  lemma DeliverOne(s: State, b: seq<Row>, n: nat)
    requires !s.sub.querying && n < |b|
    ensures Next(Delivered(s, b, n), Deliver) == Delivered(s, b, n + 1)
  {
    SendAllQuiet(s.sub, b[..n]);
    PrefixSnoc(b, n);
    SnocPrefix(b[..n], b[n]);
    assert b[n..][0] == b[n] && b[n..][1..] == b[n + 1..];
  }

  lemma {:induction false} SendAllQuiet(sub: Sub, rows: seq<Row>)
    ensures SendAll(sub, rows).querying == sub.querying
  {
    if rows != [] {
      SendAllQuiet(sub, rows[..|rows| - 1]);
    }
  }

  class Task {
    const ns: string
    var lastSent: nat
    var sent: seq<Row>

    constructor (ns: string, from: nat)
      ensures this.ns == ns && lastSent == from && sent == []
    {
      this.ns := ns;
      lastSent := from;
      sent := [];
    }

    /** The subscription with the given channel, as far as this task has come. */
    ghost function Model(sub: Sub): (r: Sub)
      reads this
    {
      sub.(ns := ns, lastSent := lastSent, sent := sent)
    }

    /** Query what was committed after the last row sent, and send it. */
    method CatchUp(rows: seq<Row>, ghost sub: Sub)
      modifies this
      ensures Model(sub) == SendAll(old(Model(sub)), After(rows, ns, old(lastSent)))
      ensures sent == old(sent) + After(rows, ns, old(lastSent))
      ensures After(rows, ns, lastSent) == []
    {
      var found := After(rows, ns, lastSent);
      ghost var start := Model(sub);
      for i := 0 to |found|
        invariant Model(sub) == SendAll(start, found[..i])
        invariant sent == old(sent) + found[..i]
        invariant lastSent >= old(lastSent) && forall r | r in found[..i] :: r.sequence <= lastSent
      {
        PrefixSnoc(found, i);
        SnocPrefix(found[..i], found[i]);
        lastSent := Max(lastSent, found[i].sequence);
        sent := sent + [found[i]];
      }
      assert found[..|found|] == found;
      NothingLeft(rows, ns, old(lastSent), lastSent);
    }

    /** A message from the channel. */
    method OnMessage(m: Row, ghost sub: Sub)
      modifies this
      ensures Model(sub) == Accept(old(Model(sub)), m)
    {
      if m.namespace == ns && m.sequence > lastSent {
        lastSent := m.sequence;
        sent := sent + [m];
      }
    }
  }

  lemma NothingLeft(rows: seq<Row>, ns: string, lo: nat, hi: nat)
    requires lo <= hi && forall r | r in After(rows, ns, lo) :: r.sequence <= hi
    ensures After(rows, ns, hi) == []
  {
    FilterExtremes(rows, (x: Row) => x.namespace == ns && x.sequence > hi);
  }
}
