/** How far a subscriber has come: the rows sent, and the rows fetched and not yet sent. */
module DeliveryProgress {
  import opened MutationLog
  import opened Prelude

  datatype Progress = Progress(ns: string, from: nat, lastSent: nat, sent: seq<Row>, buffer: seq<Row>)

  /** The highest sequence sent once the rows already fetched have been delivered. */
  function Effective(p: Progress): nat {
    if p.buffer == [] then p.lastSent else p.buffer[|p.buffer| - 1].sequence
  }

  /** Sent and fetched rows are the log in (from, lastSent] and in (lastSent, Effective]. */
  ghost predicate SentExactly(store: Store, p: Progress) {
    && Exactly(p.sent, store.rows, p.ns, p.from, p.lastSent)
    && Exactly(p.buffer, store.rows, p.ns, p.lastSent, Effective(p))
    && (p.lastSent == p.from || p.lastSent <= store.last)
    && p.from <= p.lastSent
  }

  function SendFirst(p: Progress): (r: Progress)
    requires p.buffer != []
  {
    p.(lastSent := Max(p.lastSent, p.buffer[0].sequence), sent := p.sent + [p.buffer[0]], buffer := p.buffer[1..])
  }

  lemma DropFirst(rows: seq<Row>)
    requires Ascending(rows) && rows != []
    ensures Ascending(rows[1..])
    ensures forall r | r in rows[1..] :: r in rows && rows[0].sequence < r.sequence
    ensures forall r | r in rows :: r == rows[0] || r in rows[1..]
  {
    assert rows == [rows[0]] + rows[1..];
  }

  /** Moving the first fetched row to the sent ones. */
  lemma ShiftExactly(sent: seq<Row>, b: seq<Row>, rows: seq<Row>, ns: string, from: nat, last: nat, hi: nat)
    requires Exactly(sent, rows, ns, from, last) && Exactly(b, rows, ns, last, hi)
    requires b != [] && hi == b[|b| - 1].sequence && from <= last
    ensures last < b[0].sequence <= hi && b[0] in rows
    ensures Exactly(sent + [b[0]], rows, ns, from, b[0].sequence)
    ensures Exactly(b[1..], rows, ns, b[0].sequence, hi)
  {
    DropFirst(b);
    assert b[0] in b;
    AscendingSnoc(sent, b[0]);
    forall r ensures r in sent + [b[0]] <==> r in rows && InRange(r, ns, from, b[0].sequence) {
      assert r in sent <==> r in rows && InRange(r, ns, from, last);
      assert r in b <==> r in rows && InRange(r, ns, last, hi);
    }
  }

  lemma SendKeepsExact(store: Store, p: Progress)
    requires Valid(store) && SentExactly(store, p) && p.buffer != []
    ensures SentExactly(store, SendFirst(p)) && Effective(SendFirst(p)) == Effective(p)
  {
    hide Exactly;
    ShiftExactly(p.sent, p.buffer, store.rows, p.ns, p.from, p.lastSent, Effective(p));
    assert Effective(SendFirst(p)) == Effective(p);
  }

  /** Rows appended above everything assigned do not disturb it. */
  lemma ExtendKeepsExact(store: Store, longer: Store, p: Progress)
    requires Valid(store) && SentExactly(store, p) && Extends(store, longer)
    ensures SentExactly(longer, p)
  {
    assert Effective(p) == p.lastSent || p.buffer[|p.buffer| - 1] in store.rows;
  }

  /** What was sent, as an equation on the log. */
  lemma SentIsRange(store: Store, p: Progress)
    requires Valid(store) && SentExactly(store, p)
    ensures p.sent == Range(store.rows, p.ns, p.from, p.lastSent)
  {
    ExactlyIsRange(p.sent, store.rows, p.ns, p.from, p.lastSent);
  }
}
