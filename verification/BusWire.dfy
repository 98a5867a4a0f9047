/** The bus messages on the wire, and the texts that are no message or more than one. */
module BusWire {
  import opened BusMessages
  import opened Decimal
  import opened Prelude
  import opened Sequences
  import opened Text

  /** How each type of message begins. */
  function Opening(k: Kind): (s: string) {
    match k
    case KFollowerAttach => "FOLLOWER_ATTACH|"
    case KFollowerDetach => "FOLLOWER_DETACH|"
    case KSnapshotMetadata => "SNAPSHOT_METADATA|"
    case KSnapshotDocument => "SNAPSHOT_DOCUMENT|"
    case KMutation => "MUTATION|"
    case KMutationBatch => "MUTATION_BATCH|"
    case KHeartbeat => "HEARTBEAT|"
    case KLeaderTransfer => "LEADER_TRANSFER|"
    case KAck => "ACK|"
    case KHotDocuments => "HOT_DOCUMENTS|"
    case KRequestSync => "REQUEST_SYNC|"
    case KRequestDocument => "REQUEST_DOCUMENT|"
    case KRuntimeSnapshot => "RUNTIME_SNAPSHOT|"
  }

  /** A document and its hash. */
  function DocumentText(d: (string, u64)): (s: string) {
    d.0 + ":" + Print(d.1)
  }

  /** The fields in the order they are sent. */
  function Body(m: BusMessage): (s: string) {
    match m
    case FollowerAttach(tab, version, capabilities) => tab + "|" + Print(version) + "|" + Join(capabilities, ',')
    case FollowerDetach(tab) => tab
    case SnapshotMetadata(rg, bg, ids, cursor, pending) =>
      Print(rg) + "|" + Print(bg) + "|" + Join(Map(ids, DocumentText), ',') + "|" + Print(cursor) + "|" + Print(pending)
    case SnapshotDocument(doc, rec, json) => doc + "|" + rec + "|" + json
    case Mutation(doc, rec, field, json, n, rg, bg) =>
      doc + "|" + rec + "|" + field + "|" + json + "|" + Print(n) + "|" + Print(rg) + "|" + Print(bg)
    case MutationBatch(mutations, from, to) => Print(from) + "|" + Print(to) + "|" + Join(mutations, ';')
    case Heartbeat(rg, bg, cursor, pending) => Print(rg) + "|" + Print(bg) + "|" + Print(cursor) + "|" + Print(pending)
    case LeaderTransfer(rg, bg, cursor, pending) =>
      Print(rg) + "|" + Print(bg) + "|" + Print(cursor) + "|" + Print(pending)
    case Ack(n, level, error) => Print(n) + "|" + level + "|" + if error.Some? then error.value else ""
    case HotDocuments(documents, rg, bg) => Print(rg) + "|" + Print(bg) + "|" + Join(documents, ',')
    case RequestSync(from, expected) => Print(from) + "|" + if expected.Some? then Print(expected.value) else "0"
    case RequestDocument(doc, rec) => doc + "|" + rec
    case RuntimeSnapshot(rg, bg, cursor, pending, json) =>
      Print(rg) + "|" + Print(bg) + "|" + Print(cursor) + "|" + Print(pending) + "|" + json
  }

  lemma OpeningIsTag(k: Kind)
    ensures Opening(k) == TagOf(k) + ['|']
  {
  }

  lemma JoinCons(x: string, rest: seq<string>, c: char)
    requires rest != []
    ensures Join([x] + rest, c) == x + [c] + Join(rest, c)
  {
    assert ([x] + rest)[1..] == rest;
  }

  lemma JoinFew(a: string, b: string, c: string, d: string, e: string)
    ensures Join([a], '|') == a
    ensures Join([a, b], '|') == a + "|" + b
    ensures Join([a, b, c], '|') == a + "|" + b + "|" + c
    ensures Join([a, b, c, d], '|') == a + "|" + b + "|" + c + "|" + d
    ensures Join([a, b, c, d, e], '|') == a + "|" + b + "|" + c + "|" + d + "|" + e
  {
    hide Join;
    JoinOne(a); JoinOne(b); JoinOne(c); JoinOne(d); JoinOne(e);
    JoinCons(d, [e], '|');
    JoinCons(c, [d], '|');
    JoinCons(c, [d] + [e], '|');
    JoinCons(b, [c], '|');
    JoinCons(b, [c] + [d], '|');
    JoinCons(b, [c] + ([d] + [e]), '|');
    JoinCons(a, [b], '|');
    JoinCons(a, [b] + [c], '|');
    JoinCons(a, [b] + ([c] + [d]), '|');
    JoinCons(a, [b] + ([c] + ([d] + [e])), '|');
    assert [a, b, c, d, e] == [a] + ([b] + ([c] + ([d] + [e])));
    assert [a, b, c, d] == [a] + ([b] + ([c] + [d]));
    assert [a, b, c] == [a] + ([b] + [c]);
    assert [a, b] == [a] + [b];
  }

  lemma JoinOne(a: string)
    ensures Join([a], '|') == a
  {
  }

  lemma JoinSeven(a: string, b: string, c: string, d: string, e: string, f: string, g: string)
    ensures Join([a, b, c, d, e, f, g], '|') == a + "|" + b + "|" + c + "|" + d + "|" + e + "|" + f + "|" + g
  {
    hide Join;
    var rest := [c, d, e, f, g];
    JoinFew(c, d, e, f, g);
    JoinCons(b, rest, '|');
    JoinCons(a, [b] + rest, '|');
    assert [a, b, c, d, e, f, g] == [a] + ([b] + rest);
  }

  lemma PrintZero()
    ensures Print(0) == "0"
  {
  }

  lemma {:induction false} DocumentTexts(ids: seq<(string, u64)>)
    ensures PrintDocuments(ids) == Map(ids, DocumentText)
  {
    if ids != [] {
      DocumentTexts(ids[1..]);
    }
  }

  lemma BodyIsFields(m: BusMessage)
    ensures Join(FieldsOf(m), '|') == Body(m)
  {
    hide Join, Print, PrintDocuments, Map;
    PrintZero();
    var f := FieldsOf(m);
    match m
    case FollowerDetach(_) => JoinOne(f[0]);
    case RequestDocument(_, _) => JoinFew(f[0], f[1], "", "", "");
    case RequestSync(_, _) => JoinFew(f[0], f[1], "", "", "");
    case FollowerAttach(_, _, _) => JoinFew(f[0], f[1], f[2], "", "");
    case SnapshotDocument(_, _, _) => JoinFew(f[0], f[1], f[2], "", "");
    case MutationBatch(_, _, _) => JoinFew(f[0], f[1], f[2], "", "");
    case Ack(_, _, _) => JoinFew(f[0], f[1], f[2], "", "");
    case HotDocuments(_, _, _) => JoinFew(f[0], f[1], f[2], "", "");
    case Heartbeat(_, _, _, _) => JoinFew(f[0], f[1], f[2], f[3], "");
    case LeaderTransfer(_, _, _, _) => JoinFew(f[0], f[1], f[2], f[3], "");
    case SnapshotMetadata(_, _, ids, _, _) =>
      DocumentTexts(ids);
      JoinFew(f[0], f[1], f[2], f[3], f[4]);
    case RuntimeSnapshot(_, _, _, _, _) => JoinFew(f[0], f[1], f[2], f[3], f[4]);
    case Mutation(_, _, _, _, _, _, _) => JoinSeven(f[0], f[1], f[2], f[3], f[4], f[5], f[6]);
  }

  /** The text of every message: how its type begins, then its fields in order. */
  lemma EncodeIsWire(m: BusMessage)
    ensures EncodeMessage(m) == Opening(KindOf(m)) + Body(m)
  {
    hide Opening, TagOf, Body, FieldsOf;
    OpeningIsTag(KindOf(m));
    BodyIsFields(m);
  }

  // ---- other texts ----

  lemma ParsedFields(k: Kind, fields: seq<string>)
    requires fields != [] && AllFree(fields, '|')
    ensures ParseMessage(TagOf(k) + ['|'] + Join(fields, '|')) ==
      if |fields| >= FieldsNeeded(k) then Some(ParseKind(k, fields)) else None
  {
    hide Split, Join, Tail, KindNamed, TagOf;
    TagsDiffer(k);
    SplitConcat(TagOf(k), Join(fields, '|'), '|');
    SplitJoin(fields, '|');
  }

  /** Any part of a message that ends before its last field is no message. */
  lemma TruncatedIsRefused(m: BusMessage, n: nat)
    requires Clean(m) && 0 < n < |FieldsOf(m)|
    ensures ParseMessage(TagOf(KindOf(m)) + ['|'] + Join(FieldsOf(m)[..n], '|')) == None
  {
    hide Join, Print;
    FieldsFree(m);
    FieldsRoundTrip(m);
    ParsedFields(KindOf(m), FieldsOf(m)[..n]);
  }

  lemma ParsesPrefix(k: Kind, fields: seq<string>, extra: seq<string>)
    requires |fields| >= FieldsNeeded(k)
    ensures ParseKind(k, fields + extra) == ParseKind(k, fields)
  {
    hide ParseU64, ParseUsize, ParseOr, ParseDocuments, Split;
  }

  /** Fields after the last one are ignored. */
  lemma ExtraFieldsIgnored(m: BusMessage, extra: seq<string>)
    requires Clean(m) && AllFree(extra, '|')
    ensures ParseMessage(TagOf(KindOf(m)) + ['|'] + Join(FieldsOf(m) + extra, '|')) == Some(m)
  {
    hide Join, FieldsOf, Split, ParseKind, ParseMessage, FieldsNeeded, TagOf;
    FieldsFree(m);
    FieldsRoundTrip(m);
    ParsedFields(KindOf(m), FieldsOf(m) + extra);
    ParsesPrefix(KindOf(m), FieldsOf(m), extra);
  }

  /** A tag of no type is no message. */
  lemma UnknownTagIsRefused(tag: string, rest: string)
    requires Free(tag, '|')
    requires tag != "FOLLOWER_ATTACH" && tag != "FOLLOWER_DETACH" && tag != "SNAPSHOT_METADATA"
    requires tag != "SNAPSHOT_DOCUMENT" && tag != "MUTATION" && tag != "MUTATION_BATCH" && tag != "HEARTBEAT"
    requires tag != "LEADER_TRANSFER" && tag != "ACK" && tag != "HOT_DOCUMENTS" && tag != "REQUEST_SYNC"
    requires tag != "REQUEST_DOCUMENT" && tag != "RUNTIME_SNAPSHOT"
    ensures ParseMessage(tag + ['|'] + rest) == None
  {
    hide Tail;
    SplitConcat(tag, rest, '|');
  }

  /** A number that cannot be read counts as 0, a protocol version as 1. */
  lemma UnreadableNumbers(tab: string, bad: string, capabilities: string)
    requires Free(tab, '|') && Free(bad, '|') && Free(capabilities, '|')
    requires ParseUnsigned(bad, TWO_64) == None
    ensures ParseMessage("FOLLOWER_ATTACH" + ['|'] + Join([tab, bad, capabilities], '|'))
         == Some(FollowerAttach(tab, 1, Split(capabilities, ',')))
    ensures ParseMessage("HEARTBEAT" + ['|'] + Join([bad, bad, bad, bad], '|')) == Some(Heartbeat(0, 0, 0, 0))
  {
    hide Join, Split, ParseMessage;
    ParsedFields(KFollowerAttach, [tab, bad, capabilities]);
    ParsedFields(KHeartbeat, [bad, bad, bad, bad]);
  }
}
