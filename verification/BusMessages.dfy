/**
 The tab-to-tab bus messages and their text form. A message survives the round trip exactly
 when none of its strings contains a separator in use and its optional parts are expressible.
 */
module BusMessages {
  import opened Decimal
  import opened Prelude
  import opened Text

  datatype BusMessage =
    | FollowerAttach(tabId: string, protocolVersion: u16, capabilities: seq<string>)
    | FollowerDetach(tabId: string)
    | SnapshotMetadata(runtimeGen: u64, busGen: u64, documentIds: seq<(string, u64)>, cursor: u64, pendingCount: u32)
    | SnapshotDocument(docId: string, recordId: string, fieldsJson: string)
    | Mutation(docId: string, recordId: string, field: string, valueJson: string, seqNo: u64, runtimeGen: u64, busGen: u64)
    | MutationBatch(mutations: seq<string>, fromSeq: u64, toSeq: u64)
    | Heartbeat(runtimeGen: u64, busGen: u64, cursor: u64, pendingCount: u32)
    | LeaderTransfer(runtimeGen: u64, busGen: u64, cursor: u64, pendingCount: u32)
    | Ack(seqNo: u64, level: string, error: Option<string>)
    | HotDocuments(documents: seq<string>, runtimeGen: u64, busGen: u64)
    | RequestSync(fromSeq: u64, expectedBusGen: Option<u64>)
    | RequestDocument(docId: string, recordId: string)
    | RuntimeSnapshot(runtimeGen: u64, busGen: u64, cursor: u64, pendingCount: u32, payloadJson: string)

  // ---- printing ----

  /** The message types. */
  datatype Kind =
    | KFollowerAttach
    | KFollowerDetach
    | KSnapshotMetadata
    | KSnapshotDocument
    | KMutation
    | KMutationBatch
    | KHeartbeat
    | KLeaderTransfer
    | KAck
    | KHotDocuments
    | KRequestSync
    | KRequestDocument
    | KRuntimeSnapshot

  function KindOf(m: BusMessage): (k: Kind) {
    match m
    case FollowerAttach(_, _, _) => KFollowerAttach
    case FollowerDetach(_) => KFollowerDetach
    case SnapshotMetadata(_, _, _, _, _) => KSnapshotMetadata
    case SnapshotDocument(_, _, _) => KSnapshotDocument
    case Mutation(_, _, _, _, _, _, _) => KMutation
    case MutationBatch(_, _, _) => KMutationBatch
    case Heartbeat(_, _, _, _) => KHeartbeat
    case LeaderTransfer(_, _, _, _) => KLeaderTransfer
    case Ack(_, _, _) => KAck
    case HotDocuments(_, _, _) => KHotDocuments
    case RequestSync(_, _) => KRequestSync
    case RequestDocument(_, _) => KRequestDocument
    case RuntimeSnapshot(_, _, _, _, _) => KRuntimeSnapshot
  }

  function TagOf(k: Kind): (t: string)
    ensures Free(t, '|')
  {
    match k
    case KFollowerAttach => "FOLLOWER_ATTACH"
    case KFollowerDetach => "FOLLOWER_DETACH"
    case KSnapshotMetadata => "SNAPSHOT_METADATA"
    case KSnapshotDocument => "SNAPSHOT_DOCUMENT"
    case KMutation => "MUTATION"
    case KMutationBatch => "MUTATION_BATCH"
    case KHeartbeat => "HEARTBEAT"
    case KLeaderTransfer => "LEADER_TRANSFER"
    case KAck => "ACK"
    case KHotDocuments => "HOT_DOCUMENTS"
    case KRequestSync => "REQUEST_SYNC"
    case KRequestDocument => "REQUEST_DOCUMENT"
    case KRuntimeSnapshot => "RUNTIME_SNAPSHOT"
  }

  function PrintDocument(d: (string, u64)): (s: string) {
    d.0 + ":" + Print(d.1)
  }

  function PrintDocuments(ids: seq<(string, u64)>): (r: seq<string>)
    ensures |r| == |ids|
  {
    if ids == [] then [] else [PrintDocument(ids[0])] + PrintDocuments(ids[1..])
  }

  function FieldsOf(m: BusMessage): (fields: seq<string>)
    ensures fields != []
  {
    match m
    case FollowerAttach(tab, version, capabilities) => [tab, Print(version), Join(capabilities, ',')]
    case FollowerDetach(tab) => [tab]
    case SnapshotMetadata(rg, bg, ids, cursor, pending) =>
      [Print(rg), Print(bg), Join(PrintDocuments(ids), ','), Print(cursor), Print(pending)]
    case SnapshotDocument(doc, rec, json) => [doc, rec, json]
    case Mutation(doc, rec, field, json, n, rg, bg) => [doc, rec, field, json, Print(n), Print(rg), Print(bg)]
    case MutationBatch(mutations, from, to) => [Print(from), Print(to), Join(mutations, ';')]
    case Heartbeat(rg, bg, cursor, pending) => [Print(rg), Print(bg), Print(cursor), Print(pending)]
    case LeaderTransfer(rg, bg, cursor, pending) => [Print(rg), Print(bg), Print(cursor), Print(pending)]
    case Ack(n, level, error) => [Print(n), level, if error.Some? then error.value else ""]
    case HotDocuments(documents, rg, bg) => [Print(rg), Print(bg), Join(documents, ',')]
    case RequestSync(from, expected) => [Print(from), Print(if expected.Some? then expected.value else 0)]
    case RequestDocument(doc, rec) => [doc, rec]
    case RuntimeSnapshot(rg, bg, cursor, pending, json) => [Print(rg), Print(bg), Print(cursor), Print(pending), json]
  }

  /** The tag and the fields, separated by bars. */
  function EncodeMessage(m: BusMessage): (s: string) {
    TagOf(KindOf(m)) + ['|'] + Join(FieldsOf(m), '|')
  }

  // ---- parsing ----

  function ParseU64(s: string): (n: u64) {
    ParseOr(s, TWO_64, 0)
  }

  /** `usize` has 32 bits on the browser target. */
  function ParseUsize(s: string): (n: u32) {
    ParseOr(s, TWO_32, 0)
  }

  function ParseDocuments(parts: seq<string>): (ids: seq<(string, u64)>) {
    if parts == [] then []
    else
      var p := Split(parts[0], ':');
      (if |p| >= 2 then [(p[0], ParseU64(p[1]))] else []) + ParseDocuments(parts[1..])
  }

  /** The type named by a tag. */
  function KindNamed(tag: string): (k: Option<Kind>) {
    if tag == "FOLLOWER_ATTACH" then Some(KFollowerAttach)
    else if tag == "FOLLOWER_DETACH" then Some(KFollowerDetach)
    else if tag == "SNAPSHOT_METADATA" then Some(KSnapshotMetadata)
    else if tag == "SNAPSHOT_DOCUMENT" then Some(KSnapshotDocument)
    else if tag == "MUTATION" then Some(KMutation)
    else if tag == "MUTATION_BATCH" then Some(KMutationBatch)
    else if tag == "HEARTBEAT" then Some(KHeartbeat)
    else if tag == "LEADER_TRANSFER" then Some(KLeaderTransfer)
    else if tag == "ACK" then Some(KAck)
    else if tag == "HOT_DOCUMENTS" then Some(KHotDocuments)
    else if tag == "REQUEST_SYNC" then Some(KRequestSync)
    else if tag == "REQUEST_DOCUMENT" then Some(KRequestDocument)
    else if tag == "RUNTIME_SNAPSHOT" then Some(KRuntimeSnapshot)
    else None
  }

  /** Fewer fields than a type needs is no message; extra fields are ignored. */
  function FieldsNeeded(k: Kind): (n: nat) {
    match k
    case KFollowerAttach => 3
    case KFollowerDetach => 1
    case KSnapshotMetadata => 5
    case KSnapshotDocument => 3
    case KMutation => 7
    case KMutationBatch => 3
    case KHeartbeat => 4
    case KLeaderTransfer => 4
    case KAck => 3
    case KHotDocuments => 3
    case KRequestSync => 2
    case KRequestDocument => 2
    case KRuntimeSnapshot => 5
  }

  function ParseKind(k: Kind, f: seq<string>): (m: BusMessage)
    requires |f| >= FieldsNeeded(k)
  {
    match k
    case KMutation => Mutation(f[0], f[1], f[2], f[3], ParseU64(f[4]), ParseU64(f[5]), ParseU64(f[6]))
    case KHeartbeat => Heartbeat(ParseU64(f[0]), ParseU64(f[1]), ParseU64(f[2]), ParseUsize(f[3]))
    case KFollowerAttach => FollowerAttach(f[0], ParseOr(f[1], TWO_16, 1), Split(f[2], ','))
    case KFollowerDetach => FollowerDetach(f[0])
    case KSnapshotMetadata =>
      SnapshotMetadata(ParseU64(f[0]), ParseU64(f[1]), ParseDocuments(Split(f[2], ',')), ParseU64(f[3]), ParseUsize(f[4]))
    case KSnapshotDocument => SnapshotDocument(f[0], f[1], f[2])
    case KLeaderTransfer => LeaderTransfer(ParseU64(f[0]), ParseU64(f[1]), ParseU64(f[2]), ParseUsize(f[3]))
    case KAck => Ack(ParseU64(f[0]), f[1], if f[2] == "" then None else Some(f[2]))
    case KHotDocuments => HotDocuments(Split(f[2], ','), ParseU64(f[0]), ParseU64(f[1]))
    case KRequestSync => RequestSync(ParseU64(f[0]), Some(ParseU64(f[1])))
    case KRequestDocument => RequestDocument(f[0], f[1])
    case KMutationBatch => MutationBatch(Split(f[2], ';'), ParseU64(f[0]), ParseU64(f[1]))
    case KRuntimeSnapshot =>
      RuntimeSnapshot(ParseU64(f[0]), ParseU64(f[1]), ParseU64(f[2]), ParseUsize(f[3]), f[4])
  }

  function ParseMessage(s: string): (m: Option<BusMessage>) {
    var k, fields := KindNamed(Head(s, '|')), Split(Tail(s, '|'), '|');
    if k.Some? && |fields| >= FieldsNeeded(k.value) then Some(ParseKind(k.value, fields)) else None
  }

  lemma TagsDiffer(k: Kind)
    ensures KindNamed(TagOf(k)) == Some(k)
  {
  }

  // ---- which messages survive ----

  predicate AllFree(parts: seq<string>, c: char) {
    forall p | p in parts :: Free(p, c)
  }

  /** A list that its own separator can express. */
  predicate Listable(parts: seq<string>, c: char) {
    parts != [] && AllFree(parts, c) && AllFree(parts, '|')
  }

  predicate PlainId(id: string) {
    Free(id, '|') && Free(id, ',') && Free(id, ':')
  }

  predicate Clean(m: BusMessage) {
    match m
    case FollowerAttach(tab, _, capabilities) => Free(tab, '|') && Listable(capabilities, ',')
    case FollowerDetach(tab) => Free(tab, '|')
    case SnapshotMetadata(_, _, ids, _, _) => forall d | d in ids :: PlainId(d.0)
    case SnapshotDocument(doc, rec, json) => Free(doc, '|') && Free(rec, '|') && Free(json, '|')
    case Mutation(doc, rec, field, json, _, _, _) => Free(doc, '|') && Free(rec, '|') && Free(field, '|') && Free(json, '|')
    case MutationBatch(mutations, _, _) => Listable(mutations, ';')
    case Ack(_, level, error) => Free(level, '|') && (error.Some? ==> error.value != "" && Free(error.value, '|'))
    case HotDocuments(documents, _, _) => Listable(documents, ',')
    case RequestSync(_, expected) => expected.Some?
    case RequestDocument(doc, rec) => Free(doc, '|') && Free(rec, '|')
    case RuntimeSnapshot(_, _, _, _, json) => Free(json, '|')
    case _ => true
  }

  lemma PrintFree(n: nat, c: char)
    requires !IsDigit(c)
    ensures Free(Print(n), c)
  {
  }

  lemma {:induction false} DocumentsRoundTrip(ids: seq<(string, u64)>)
    requires forall d | d in ids :: PlainId(d.0)
    ensures AllFree(PrintDocuments(ids), ',') && AllFree(PrintDocuments(ids), '|')
    ensures ParseDocuments(PrintDocuments(ids)) == ids
  {
    if ids != [] {
      var d := ids[0];
      DocumentsRoundTrip(ids[1..]);
      PrintFree(d.1, ',');
      PrintFree(d.1, '|');
      PrintFree(d.1, ':');
      ParsePrint(d.1, TWO_64, 0);
      SplitFree(Print(d.1), ':');
      SplitConcat(d.0, Print(d.1), ':');
      assert [d] + ids[1..] == ids;
    }
  }

  /** An empty list prints as "", which splits into one part without a colon and is dropped. */
  lemma DocumentListRoundTrip(ids: seq<(string, u64)>)
    requires forall d | d in ids :: PlainId(d.0)
    ensures ParseDocuments(Split(Join(PrintDocuments(ids), ','), ',')) == ids
    ensures Free(Join(PrintDocuments(ids), ','), '|')
  {
    DocumentsRoundTrip(ids);
    JoinFree(PrintDocuments(ids), ',', '|');
    if ids != [] {
      SplitJoin(PrintDocuments(ids), ',');
    } else {
      assert Split("", ':') == [""];
      assert [""][1..] == [];
    }
  }

  lemma NumberRoundTrip(n: nat)
    ensures Free(Print(n), '|')
    ensures n < TWO_64 ==> ParseU64(Print(n)) == n
    ensures n < TWO_32 ==> ParseUsize(Print(n)) == n
    ensures n < TWO_16 ==> ParseOr(Print(n), TWO_16, 1) == n
  {
    NumberOfPrint(n);
  }

  lemma ListRoundTrip(parts: seq<string>, c: char)
    requires c != '|' && Listable(parts, c)
    ensures Split(Join(parts, c), c) == parts && Free(Join(parts, c), '|')
  {
    SplitJoin(parts, c);
    JoinFree(parts, c, '|');
  }

  lemma FieldsFree(m: BusMessage)
    requires Clean(m)
    ensures AllFree(FieldsOf(m), '|')
  {
    hide ParseOr, Split;
    forall n: nat ensures Free(Print(n), '|') { PrintFree(n, '|'); }
    match m
    case FollowerAttach(_, _, capabilities) => ListRoundTrip(capabilities, ',');
    case SnapshotMetadata(_, _, ids, _, _) => DocumentListRoundTrip(ids);
    case MutationBatch(mutations, _, _) => ListRoundTrip(mutations, ';');
    case HotDocuments(documents, _, _) => ListRoundTrip(documents, ',');
    case _ =>
  }

  predicate Survives(m: BusMessage) {
    |FieldsOf(m)| == FieldsNeeded(KindOf(m)) && ParseKind(KindOf(m), FieldsOf(m)) == m
  }

  lemma CountersRoundTrip(a: u64, b: u64, c: u64, d: u32)
    ensures ParseU64(Print(a)) == a && ParseU64(Print(b)) == b && ParseU64(Print(c)) == c
    ensures ParseUsize(Print(d)) == d
  {
    NumberRoundTrip(a);
    NumberRoundTrip(b);
    NumberRoundTrip(c);
    NumberRoundTrip(d);
  }

  lemma AttachRoundTrip(tab: string, version: u16, capabilities: seq<string>)
    requires Listable(capabilities, ',')
    ensures Survives(FollowerAttach(tab, version, capabilities))
  {
    NumberRoundTrip(version);
    ListRoundTrip(capabilities, ',');
  }

  lemma MetadataRoundTrip(rg: u64, bg: u64, ids: seq<(string, u64)>, cursor: u64, pending: u32)
    requires forall d | d in ids :: PlainId(d.0)
    ensures Survives(SnapshotMetadata(rg, bg, ids, cursor, pending))
  {
    hide ParseU64, ParseUsize, ParseDocuments, PrintDocuments, Print, Split, Join;
    CountersRoundTrip(rg, bg, cursor, pending);
    DocumentListRoundTrip(ids);
  }

  lemma BatchRoundTrip(mutations: seq<string>, from: u64, to: u64)
    requires Listable(mutations, ';')
    ensures Survives(MutationBatch(mutations, from, to))
  {
    CountersRoundTrip(from, to, 0, 0);
    ListRoundTrip(mutations, ';');
  }

  lemma HotRoundTrip(documents: seq<string>, rg: u64, bg: u64)
    requires Listable(documents, ',')
    ensures Survives(HotDocuments(documents, rg, bg))
  {
    CountersRoundTrip(rg, bg, 0, 0);
    ListRoundTrip(documents, ',');
  }

  lemma StateRoundTrip(rg: u64, bg: u64, cursor: u64, pending: u32, json: string)
    ensures Survives(Heartbeat(rg, bg, cursor, pending))
    ensures Survives(LeaderTransfer(rg, bg, cursor, pending))
    ensures Survives(RuntimeSnapshot(rg, bg, cursor, pending, json))
  {
    CountersRoundTrip(rg, bg, cursor, pending);
  }

  lemma MutationRoundTrip(doc: string, rec: string, field: string, json: string, n: u64, rg: u64, bg: u64)
    ensures Survives(Mutation(doc, rec, field, json, n, rg, bg))
  {
    CountersRoundTrip(n, rg, bg, 0);
  }

  lemma AckRoundTrip(n: u64, level: string, error: Option<string>)
    requires error != Some("")
    ensures Survives(Ack(n, level, error))
  {
    NumberRoundTrip(n);
  }

  lemma RequestRoundTrip(from: u64, busGen: u64)
    ensures Survives(RequestSync(from, Some(busGen)))
  {
    NumberRoundTrip(from);
    NumberRoundTrip(busGen);
  }

  /** The fields of a clean message parse back to it. */
  lemma FieldsRoundTrip(m: BusMessage)
    requires Clean(m)
    ensures Survives(m)
  {
    match m {
      case FollowerAttach(tab, version, capabilities) => AttachRoundTrip(tab, version, capabilities);
      case SnapshotMetadata(rg, bg, ids, cursor, pending) => MetadataRoundTrip(rg, bg, ids, cursor, pending);
      case MutationBatch(mutations, from, to) => BatchRoundTrip(mutations, from, to);
      case HotDocuments(documents, rg, bg) => HotRoundTrip(documents, rg, bg);
      case Mutation(doc, rec, field, json, n, rg, bg) => MutationRoundTrip(doc, rec, field, json, n, rg, bg);
      case Heartbeat(rg, bg, cursor, pending) => StateRoundTrip(rg, bg, cursor, pending, "");
      case LeaderTransfer(rg, bg, cursor, pending) => StateRoundTrip(rg, bg, cursor, pending, "");
      case RuntimeSnapshot(rg, bg, cursor, pending, json) => StateRoundTrip(rg, bg, cursor, pending, json);
      case Ack(n, level, error) => AckRoundTrip(n, level, error);
      case RequestSync(from, expected) => RequestRoundTrip(from, expected.value);
      case FollowerDetach(_) =>
      case SnapshotDocument(_, _, _) =>
      case RequestDocument(_, _) =>
    }
  }

  lemma CleanRoundTrips(m: BusMessage)
    requires Clean(m)
    ensures ParseMessage(EncodeMessage(m)) == Some(m)
  {
    FieldsFree(m);
    FieldsRoundTrip(m);
    TagsDiffer(KindOf(m));
    SplitConcat(TagOf(KindOf(m)), Join(FieldsOf(m), '|'), '|');
    SplitJoin(FieldsOf(m), '|');
  }

  lemma {:induction false} ParsedDocumentsArePlain(parts: seq<string>)
    requires AllFree(parts, ',') && AllFree(parts, '|')
    ensures forall d | d in ParseDocuments(parts) :: PlainId(d.0)
  {
    if parts != [] {
      ParsedDocumentsArePlain(parts[1..]);
      SplitParts(parts[0], ':');
      assert parts[0] in parts;
    }
  }

  lemma SplitListable(s: string, c: char)
    requires Free(s, '|')
    ensures Listable(Split(s, c), c)
  {
    SplitParts(s, c);
  }

  /** Whatever the fields, the message they parse to is clean. */
  lemma ParsedIsClean(k: Kind, f: seq<string>)
    requires AllFree(f, '|') && |f| >= FieldsNeeded(k)
    ensures Clean(ParseKind(k, f))
  {
    if |f| >= 3 {
      assert f[2] in f;
      SplitListable(f[2], ',');
      SplitListable(f[2], ';');
      ParsedDocumentsArePlain(Split(f[2], ','));
    }
  }

  /** A message survives encoding and parsing exactly when it is clean. */
  lemma RoundTripIff(m: BusMessage)
    ensures ParseMessage(EncodeMessage(m)) == Some(m) <==> Clean(m)
  {
    var s := EncodeMessage(m);
    if Clean(m) {
      CleanRoundTrips(m);
    } else if ParseMessage(s).Some? {
      SplitParts(Tail(s, '|'), '|');
      ParsedIsClean(KindNamed(Head(s, '|')).value, Split(Tail(s, '|'), '|'));
    }
  }

  /** Different clean messages have different texts. */
  lemma EncodeInjective(a: BusMessage, b: BusMessage)
    requires Clean(a) && Clean(b) && EncodeMessage(a) == EncodeMessage(b)
    ensures a == b
  {
    CleanRoundTrips(a);
    CleanRoundTrips(b);
  }

  /** A bar in a tab id cuts the id short. */
  lemma BarCutsField()
    ensures ParseMessage(EncodeMessage(FollowerDetach("a|b"))) == Some(FollowerDetach("a"))
  {
    var m := FollowerDetach("a|b");
    SplitConcat(TagOf(KFollowerDetach), "a|b", '|');
    TagsDiffer(KFollowerDetach);
    SplitConcat("a", "b", '|');
    assert "a|b" == "a" + ['|'] + "b";
    assert Join(FieldsOf(m), '|') == "a|b";
    hide TagOf, KindNamed;
    assert Head(EncodeMessage(m), '|') == TagOf(KFollowerDetach);
    assert Split("a|b", '|')[0] == "a";
  }
}
