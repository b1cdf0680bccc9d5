/**
 * The idempotent request/reply transport of src/request.rs as a system of atomic steps.
 *
 * Calls to `publish` and `reply` run interleaved and may crash between any two steps. Records
 * and messages are files: a record is created once and never replaced, a message is created
 * once per name, and archiving links the archive copy before it unlinks the inbox copy.
 * `hash` is the digest that names record files; nothing is assumed of it, so records of
 * different keys may fall on one path.
 */
module Transport {

  datatype Option<+T> = None | Some(value: T)

  type Id = string
  type Key = string
  type Filename = string
  type Tags = map<string, string>

  const REQUEST_VERSION: nat := 1

  /** Transport tags: `st2-request`, `st2-request-reply`, and any other. */
  datatype Tag = RequestTag | ReplyTag | OtherTag(name: string)

  datatype Envelope =
    | Request(version: nat, key: Key, from: Id, to: Id, replyTo: Id, tags: Tags, body: string)
    | Reply(version: nat, key: Key, requestFilename: Filename, from: Id, tags: Tags, body: string)

  /** A parsed message file; `body` is `None` for a body that is not a typed envelope. */
  datatype Message = Message(from: Id, subject: string, inReplyTo: Option<Filename>, tags: seq<Tag>, body: Option<Envelope>)

  datatype Dir = Outgoing(principal: Id) | Replies(agent: Id)

  datatype Path = Path(dir: Dir, digest: int)

  datatype Record = Record(version: nat, stateKey: Key, from: Id, to: Id, filename: Filename, envelope: Envelope, rendered: Message)

  /** The arguments of one `publish_once`; the inbox it writes to is that of `to`. */
  datatype Send = Send(dir: Dir, stateKey: Key, receiptKey: Key, from: Id, to: Id, envelope: Envelope,
                       subject: string, inReplyTo: Option<Filename>, tag: Tag)

  datatype Receipt = Receipt(call: nat, send: Send, filename: Filename, deduplicated: bool)

  datatype Call =
    | Ready(send: Send)
    | Reserved(send: Send, record: Record, created: bool)
    | Placed(send: Send, record: Record, created: bool, messageCreated: bool)

  type Boxes = map<(Id, Filename), Message>

  /** `creator` and `names` only observe: the call that created a record, and what each generated name was given to. */
  datatype State = State(records: map<Path, Record>, inbox: Boxes, archive: Boxes,
                         calls: map<nat, Call>, nextCall: nat, receipts: seq<Receipt>,
                         creator: map<Path, nat>, names: map<Filename, (Id, Message)>)

  const INIT: State := State(map[], map[], map[], map[], 0, [], map[], map[])

  // ----- what one call sends -----

  function StateKeyOfReply(replyTo: Id, key: Key): Key {
    replyTo + "\0" + key
  }

  function PublishSend(principal: Id, to: Id, key: Key, tags: Tags, body: string): Send {
    Send(Outgoing(principal), key, key, principal, to,
         Request(REQUEST_VERSION, key, principal, to, principal, tags, body),
         "request " + key, None, RequestTag)
  }

  function ReplySend(agent: Id, filename: Filename, request: Envelope, tags: Tags, body: string): Send
    requires request.Request?
  {
    Send(Replies(agent), StateKeyOfReply(request.replyTo, request.key), request.key, agent, request.replyTo,
         Reply(REQUEST_VERSION, request.key, filename, agent, tags, body),
         "re: request " + request.key, Some(filename), ReplyTag)
  }

  function Render(send: Send): Message {
    Message(send.from, send.subject, send.inReplyTo, [send.tag], Some(send.envelope))
  }

  function Candidate(send: Send, filename: Filename): Record {
    Record(REQUEST_VERSION, send.stateKey, send.from, send.to, filename, send.envelope, Render(send))
  }

  function RecordPath(hash: Key -> int, send: Send): Path {
    Path(send.dir, hash(send.stateKey))
  }

  /** The test `publish_once` makes before it touches the inbox. */
  predicate SameSend(record: Record, send: Send) {
    && record.version == REQUEST_VERSION && record.stateKey == send.stateKey
    && record.from == send.from && record.to == send.to && record.envelope == send.envelope
  }

  /** `parse_request_message`: the envelope of a message that is a well-formed request. */
  function ParseRequest(m: Message): (r: Option<Envelope>)
    ensures r.Some? ==> r.value.Request?
  {
    if m.body.Some? && m.body.value.Request? && m.body.value.from == m.body.value.replyTo && m.from == m.body.value.from
       && RequestTag in m.tags && m.inReplyTo.None?
    then m.body
    else None
  }

  function ReadInboxOrArchive(s: State, box: Id, filename: Filename): Option<Message> {
    if (box, filename) in s.inbox then Some(s.inbox[(box, filename)])
    else if (box, filename) in s.archive then Some(s.archive[(box, filename)])
    else None
  }

  /** The request an agent may reply to: present, well formed, of this version and addressed to it. */
  function RequestFor(s: State, agent: Id, filename: Filename): (r: Option<Envelope>)
    ensures r.Some? ==> r.value.Request?
  {
    var m := ReadInboxOrArchive(s, agent, filename);
    if m.None? then None
    else
      var r := ParseRequest(m.value);
      if r.Some? && r.value.version == REQUEST_VERSION && r.value.to == agent then r else None
  }

  // ----- steps -----

  datatype Action =
    | StartPublish(principal: Id, to: Id, key: Key, tags: Tags, body: string)
    | StartReply(agent: Id, filename: Filename, tags: Tags, body: string)
    | Reserve(call: nat, newName: Filename)
    | Place(call: nat)
    | Finish(call: nat)
    | Crash(call: nat)
    | ArchiveLink(box: Id, name: Filename)
    | ArchiveUnlink(box: Id, name: Filename)
    | SyncRestore(box: Id, name: Filename)
    | OtherMail(box: Id, name: Filename, mail: Message)

  predicate Enabled(s: State, a: Action) {
    match a
    case StartPublish(_, _, key, _, _) => key != ""
    case StartReply(agent, filename, _, _) => RequestFor(s, agent, filename).Some?
    case Reserve(c, _) => c in s.calls && s.calls[c].Ready?
    case Place(c) => c in s.calls && s.calls[c].Reserved?
    case Finish(c) => c in s.calls && s.calls[c].Placed?
    case Crash(c) => c in s.calls
    case ArchiveLink(box, name) => (box, name) in s.inbox && (box, name) !in s.archive
    case ArchiveUnlink(box, name) => (box, name) in s.inbox && (box, name) in s.archive
    case SyncRestore(box, name) => (box, name) !in s.inbox && (box, name) in s.archive
    case OtherMail(box, name, m) => (box, name) !in s.inbox && RequestTag !in m.tags && ReplyTag !in m.tags
  }

  function Begin(s: State, send: Send): State {
    s.(calls := s.calls[s.nextCall := Ready(send)], nextCall := s.nextCall + 1)
  }

  /** `atomic_create` of the record, or the read of the one that is there. */
  function ReserveRecord(hash: Key -> int, s: State, c: nat, newName: Filename): State
    requires c in s.calls && s.calls[c].Ready?
  {
    var send := s.calls[c].send;
    var path := RecordPath(hash, send);
    if path in s.records then s.(calls := s.calls[c := Reserved(send, s.records[path], false)])
    else
      var record := Candidate(send, newName);
      s.(records := s.records[path := record], creator := s.creator[path := c],
         names := s.names[newName := (record.to, record.rendered)],
         calls := s.calls[c := Reserved(send, record, true)])
  }

  /** The comparison with the record, then `materialize_message_once`; a failed call is gone. */
  function PlaceMessage(s: State, c: nat): State
    requires c in s.calls && s.calls[c].Reserved?
  {
    var Reserved(send, record, created) := s.calls[c];
    var slot := (send.to, record.filename);
    if !SameSend(record, send) || (slot in s.inbox && s.inbox[slot] != record.rendered) then s.(calls := s.calls - {c})
    else
      s.(inbox := s.inbox[slot := record.rendered], calls := s.calls[c := Placed(send, record, created, slot !in s.inbox)])
  }

  function FinishCall(s: State, c: nat): State
    requires c in s.calls && s.calls[c].Placed?
  {
    var Placed(send, record, created, messageCreated) := s.calls[c];
    s.(receipts := s.receipts + [Receipt(c, send, record.filename, !created || !messageCreated)], calls := s.calls - {c})
  }

  function Apply(hash: Key -> int, s: State, a: Action): State
    requires Enabled(s, a)
  {
    match a
    case StartPublish(principal, to, key, tags, body) => Begin(s, PublishSend(principal, to, key, tags, body))
    case StartReply(agent, filename, tags, body) =>
      Begin(s, ReplySend(agent, filename, RequestFor(s, agent, filename).value, tags, body))
    case Reserve(c, newName) => ReserveRecord(hash, s, c, newName)
    case Place(c) => PlaceMessage(s, c)
    case Finish(c) => FinishCall(s, c)
    case Crash(c) => s.(calls := s.calls - {c})
    case ArchiveLink(box, name) => s.(archive := s.archive[(box, name) := s.inbox[(box, name)]])
    case ArchiveUnlink(box, name) => s.(inbox := s.inbox - {(box, name)})
    case SyncRestore(box, name) => s.(inbox := s.inbox[(box, name) := s.archive[(box, name)]])
    case OtherMail(box, name, m) => s.(inbox := s.inbox[(box, name) := m], names := s.names[name := (box, m)])
  }

  /** A step that takes a new name takes one never taken before. */
  predicate TakesFreshName(s: State, a: Action) {
    && (a.Reserve? ==> a.newName !in s.names)
    && (a.OtherMail? ==> a.name !in s.names)
  }

  ghost predicate IsRun(hash: Key -> int, run: seq<State>, acts: seq<Action>) {
    && |run| == |acts| + 1 && run[0] == INIT
    && forall i :: 0 <= i < |acts| ==> Enabled(run[i], acts[i]) && run[i + 1] == Apply(hash, run[i], acts[i])
  }

  ghost predicate IsFreshRun(hash: Key -> int, run: seq<State>, acts: seq<Action>) {
    IsRun(hash, run, acts) && forall i :: 0 <= i < |acts| ==> TakesFreshName(run[i], acts[i])
  }

  // ----- invariant -----

  ghost predicate GoodSend(send: Send) {
    match send.dir
    case Outgoing(p) =>
      && send.from == p && send.envelope.Request? && send.stateKey == send.envelope.key && send.envelope.from == p
      && send.envelope.replyTo == p && send.envelope.to == send.to && send.tag == RequestTag && send.inReplyTo.None?
      && send.envelope.version == REQUEST_VERSION && send.subject == "request " + send.envelope.key
    case Replies(a) =>
      && send.from == a && send.envelope.Reply? && send.stateKey == StateKeyOfReply(send.to, send.envelope.key)
      && send.envelope.from == a && send.tag == ReplyTag && send.inReplyTo == Some(send.envelope.requestFilename)
      && send.envelope.version == REQUEST_VERSION && send.subject == "re: request " + send.envelope.key
  }

  /** `record` is what some well-formed call put at `path`. */
  ghost predicate GoodRecord(hash: Key -> int, path: Path, record: Record) {
    exists send :: GoodSend(send) && path == RecordPath(hash, send) && record == Candidate(send, record.filename)
  }

  /** The record a typed message in `box` must come from. */
  function OwnerPath(hash: Key -> int, box: Id, m: Message): Path {
    if m.body.None? then Path(Outgoing(m.from), 0)
    else if ReplyTag in m.tags then Path(Replies(m.from), hash(StateKeyOfReply(box, m.body.value.key)))
    else Path(Outgoing(m.from), hash(m.body.value.key))
  }

  predicate Typed(m: Message) {
    RequestTag in m.tags || ReplyTag in m.tags
  }

  ghost predicate Owned(hash: Key -> int, s: State, box: Id, name: Filename, m: Message) {
    var path := OwnerPath(hash, box, m);
    path in s.records && s.records[path].rendered == m && s.records[path].filename == name && s.records[path].to == box
  }

  ghost predicate BoxesOwned(hash: Key -> int, s: State, boxes: Boxes) {
    forall box, name :: (box, name) in boxes && Typed(boxes[(box, name)]) ==> Owned(hash, s, box, name, boxes[(box, name)])
  }

  ghost predicate CallFits(hash: Key -> int, s: State, c: nat, call: Call) {
    var path := RecordPath(hash, call.send);
    && GoodSend(call.send)
    && (!call.Ready? ==> path in s.records && s.records[path] == call.record && (call.created ==> path in s.creator && s.creator[path] == c))
    && (call.Placed? ==> SameSend(call.record, call.send))
  }

  ghost predicate ReceiptFits(hash: Key -> int, s: State, r: Receipt) {
    var path := RecordPath(hash, r.send);
    && path in s.records && SameSend(s.records[path], r.send) && s.records[path].filename == r.filename
    && (!r.deduplicated ==> path in s.creator && s.creator[path] == r.call)
  }

  ghost predicate Inv(hash: Key -> int, s: State) {
    && (forall path :: path in s.records ==> GoodRecord(hash, path, s.records[path]))
    && BoxesOwned(hash, s, s.inbox) && BoxesOwned(hash, s, s.archive)
    && (forall c :: c in s.calls ==> c < s.nextCall && CallFits(hash, s, c, s.calls[c]))
    && (forall i :: 0 <= i < |s.receipts| ==> s.receipts[i].call < s.nextCall && s.receipts[i].call !in s.calls && ReceiptFits(hash, s, s.receipts[i]))
    && (forall i, j :: 0 <= i < j < |s.receipts| ==> s.receipts[i].call != s.receipts[j].call)
  }

  /** Records are only ever added. */
  ghost predicate Grows(s: State, t: State) {
    && (forall path :: path in s.records ==> path in t.records && t.records[path] == s.records[path])
    && (forall path :: path in s.creator && path in s.records ==> path in t.creator && t.creator[path] == s.creator[path])
  }

  lemma GoodRecordOwns(hash: Key -> int, s: State, path: Path)
    requires path in s.records && GoodRecord(hash, path, s.records[path])
    ensures Typed(s.records[path].rendered) && OwnerPath(hash, s.records[path].to, s.records[path].rendered) == path
    ensures Owned(hash, s, s.records[path].to, s.records[path].filename, s.records[path].rendered)
  {
    var record := s.records[path];
    var send :| GoodSend(send) && path == RecordPath(hash, send) && record == Candidate(send, record.filename);
  }

  lemma ApplyGrows(hash: Key -> int, s: State, a: Action)
    requires Enabled(s, a)
    ensures Grows(s, Apply(hash, s, a))
  {
    hide RequestFor, PublishSend, ReplySend, Candidate, RecordPath, SameSend;
  }

  lemma GrowsKeepsBoxes(hash: Key -> int, s: State, t: State, boxes: Boxes)
    requires Grows(s, t) && BoxesOwned(hash, s, boxes)
    ensures BoxesOwned(hash, t, boxes)
  {
  }

  lemma GrowsKeepsCall(hash: Key -> int, s: State, t: State, c: nat, call: Call)
    requires Grows(s, t) && CallFits(hash, s, c, call)
    ensures CallFits(hash, t, c, call)
  {
  }

  lemma GrowsKeepsReceipt(hash: Key -> int, s: State, t: State, r: Receipt)
    requires Grows(s, t) && ReceiptFits(hash, s, r)
    ensures ReceiptFits(hash, t, r)
  {
  }

  /** A step that adds records, keeps receipts, and changes at most call `c`. */
  lemma StepKeeps(hash: Key -> int, s: State, t: State, c: nat)
    requires Inv(hash, s) && Grows(s, t) && s.nextCall <= t.nextCall && t.receipts == s.receipts
    requires forall path :: path in t.records ==> path in s.records || GoodRecord(hash, path, t.records[path])
    requires BoxesOwned(hash, t, t.inbox) && BoxesOwned(hash, t, t.archive)
    requires forall d :: d in t.calls && d != c ==> d in s.calls && t.calls[d] == s.calls[d]
    requires c in t.calls ==> c < t.nextCall && (c in s.calls || s.nextCall <= c) && CallFits(hash, t, c, t.calls[c])
    ensures Inv(hash, t)
  {
    hide GoodRecord, BoxesOwned, CallFits, ReceiptFits;
    forall d | d in t.calls ensures CallFits(hash, t, d, t.calls[d]) {
      if d != c {
        GrowsKeepsCall(hash, s, t, d, s.calls[d]);
      }
    }
    forall i | 0 <= i < |t.receipts| ensures ReceiptFits(hash, t, t.receipts[i]) {
      GrowsKeepsReceipt(hash, s, t, s.receipts[i]);
    }
  }

  lemma BeginKeeps(hash: Key -> int, s: State, send: Send)
    requires Inv(hash, s) && GoodSend(send)
    ensures Inv(hash, Begin(s, send))
  {
    hide GoodRecord, Owned, Typed, ReceiptFits, GoodSend;
    OwnedKept(hash, s, Begin(s, send));
    StepKeeps(hash, s, Begin(s, send), s.nextCall);
  }

  /** Reserving adds at most its own record and touches its own call. */
  lemma ReserveFrame(hash: Key -> int, s: State, c: nat, newName: Filename)
    requires c in s.calls && s.calls[c].Ready?
    ensures var t := ReserveRecord(hash, s, c, newName);
      var path := RecordPath(hash, s.calls[c].send);
      && t.inbox == s.inbox && t.archive == s.archive && t.receipts == s.receipts && t.nextCall == s.nextCall
      && path in t.records && c in t.calls && t.calls[c] == Reserved(s.calls[c].send, t.records[path], path !in s.records)
      && (forall d :: d in t.calls && d != c ==> d in s.calls && t.calls[d] == s.calls[d])
      && (if path in s.records then t.records == s.records && t.creator == s.creator
          else t.records == s.records[path := Candidate(s.calls[c].send, newName)] && t.creator == s.creator[path := c])
  {
    hide Candidate, RecordPath;
  }

  lemma ReserveKeeps(hash: Key -> int, s: State, c: nat, newName: Filename)
    requires Inv(hash, s) && c in s.calls && s.calls[c].Ready?
    ensures Inv(hash, ReserveRecord(hash, s, c, newName))
  {
    hide GoodSend, GoodRecord, BoxesOwned, RecordPath, Candidate, Inv, ReserveRecord;
    InvParts(hash, s, c);
    ReserveFrame(hash, s, c, newName);
    CandidateIsGood(hash, s.calls[c].send, newName);
    var t := ReserveRecord(hash, s, c, newName);
    GrowsKeepsBoxes(hash, s, t, s.inbox);
    GrowsKeepsBoxes(hash, s, t, s.archive);
    StepKeeps(hash, s, t, c);
  }

  lemma CandidateIsGood(hash: Key -> int, send: Send, newName: Filename)
    requires GoodSend(send)
    ensures GoodRecord(hash, RecordPath(hash, send), Candidate(send, newName))
  {
    hide GoodSend;
    assert Candidate(send, newName) == Candidate(send, Candidate(send, newName).filename);
  }

  lemma InvParts(hash: Key -> int, s: State, c: nat)
    requires Inv(hash, s) && c in s.calls
    ensures c < s.nextCall && CallFits(hash, s, c, s.calls[c])
    ensures BoxesOwned(hash, s, s.inbox) && BoxesOwned(hash, s, s.archive)
    ensures var path := RecordPath(hash, s.calls[c].send);
      !s.calls[c].Ready? ==> path in s.records && GoodRecord(hash, path, s.records[path])
  {
  }

  lemma PlacedIsOwned(hash: Key -> int, s: State, c: nat)
    requires Inv(hash, s) && c in s.calls && s.calls[c].Reserved?
    ensures BoxesOwned(hash, PlaceMessage(s, c), PlaceMessage(s, c).inbox)
  {
    hide GoodRecord, Owned, Typed, ReceiptFits, GoodSend, Inv;
    InvParts(hash, s, c);
    var t := PlaceMessage(s, c);
    var Reserved(send, record, created) := s.calls[c];
    GoodRecordOwns(hash, s, RecordPath(hash, send));
    OwnedKept(hash, s, t);
  }

  /** Placing a message touches the inbox and its own call. */
  lemma PlaceFrame(s: State, c: nat)
    requires c in s.calls && s.calls[c].Reserved?
    ensures var t := PlaceMessage(s, c);
      && t.records == s.records && t.creator == s.creator && t.archive == s.archive && t.receipts == s.receipts && t.nextCall == s.nextCall
      && (forall d :: d in t.calls && d != c ==> d in s.calls && t.calls[d] == s.calls[d])
      && (c in t.calls ==>
            && t.calls[c].Placed? && t.calls[c].send == s.calls[c].send && t.calls[c].record == s.calls[c].record
            && t.calls[c].created == s.calls[c].created && SameSend(t.calls[c].record, t.calls[c].send))
  {
    hide SameSend;
  }

  lemma PlaceKeeps(hash: Key -> int, s: State, c: nat)
    requires Inv(hash, s) && c in s.calls && s.calls[c].Reserved?
    ensures Inv(hash, PlaceMessage(s, c))
  {
    hide GoodRecord, BoxesOwned, GoodSend, SameSend, Inv, PlaceMessage, RecordPath;
    PlacedIsOwned(hash, s, c);
    InvParts(hash, s, c);
    PlaceFrame(s, c);
    var t := PlaceMessage(s, c);
    GrowsKeepsBoxes(hash, s, t, s.archive);
    StepKeeps(hash, s, t, c);
  }

  lemma OwnedKept(hash: Key -> int, s: State, t: State)
    requires Grows(s, t)
    ensures forall box, name, m :: Owned(hash, s, box, name, m) ==> Owned(hash, t, box, name, m)
  {
  }

  lemma FinishKeeps(hash: Key -> int, s: State, c: nat)
    requires Inv(hash, s) && c in s.calls && s.calls[c].Placed?
    ensures Inv(hash, FinishCall(s, c))
  {
    hide GoodRecord, Owned, GoodSend;
    var t := FinishCall(s, c);
    assert CallFits(hash, s, c, s.calls[c]);
    OwnedKept(hash, s, t);
    forall i | 0 <= i < |t.receipts| ensures ReceiptFits(hash, t, t.receipts[i]) {
      if i < |s.receipts| {
        GrowsKeepsReceipt(hash, s, t, s.receipts[i]);
      }
    }
    forall d | d in t.calls ensures CallFits(hash, t, d, t.calls[d]) {
      GrowsKeepsCall(hash, s, t, d, s.calls[d]);
    }
  }

  predicate MovesMail(a: Action) {
    a.ArchiveLink? || a.ArchiveUnlink? || a.SyncRestore? || a.OtherMail? || a.Crash?
  }

  /** Mail steps move or add files that are owned or untyped. */
  lemma MailIsOwned(hash: Key -> int, s: State, a: Action)
    requires Enabled(s, a) && MovesMail(a) && BoxesOwned(hash, s, s.inbox) && BoxesOwned(hash, s, s.archive)
    ensures var t := Apply(hash, s, a); BoxesOwned(hash, t, t.inbox) && BoxesOwned(hash, t, t.archive)
  {
    hide Owned;
    OwnedKept(hash, s, Apply(hash, s, a));
  }

  lemma MailFrame(hash: Key -> int, s: State, a: Action)
    requires Enabled(s, a) && MovesMail(a)
    ensures var t := Apply(hash, s, a);
      && t.records == s.records && t.creator == s.creator && t.receipts == s.receipts && t.nextCall == s.nextCall
      && forall d :: d in t.calls ==> d in s.calls && t.calls[d] == s.calls[d]
  {
  }

  /** Archiving, restoring, crashes and other people's mail. */
  lemma MailKeeps(hash: Key -> int, s: State, a: Action)
    requires Inv(hash, s) && Enabled(s, a) && MovesMail(a)
    ensures Inv(hash, Apply(hash, s, a))
  {
    hide GoodRecord, BoxesOwned, ReceiptFits, CallFits, Apply, Enabled;
    MailIsOwned(hash, s, a);
    MailFrame(hash, s, a);
    StepKeeps(hash, s, Apply(hash, s, a), s.nextCall);
  }

  lemma ApplyKeeps(hash: Key -> int, s: State, a: Action)
    requires Inv(hash, s) && Enabled(s, a)
    ensures Inv(hash, Apply(hash, s, a))
  {
    hide Inv;
    match a
    case StartPublish(principal, to, key, tags, body) => BeginKeeps(hash, s, PublishSend(principal, to, key, tags, body));
    case StartReply(agent, filename, tags, body) =>
      BeginKeeps(hash, s, ReplySend(agent, filename, RequestFor(s, agent, filename).value, tags, body));
    case Reserve(c, newName) => ReserveKeeps(hash, s, c, newName);
    case Place(c) => PlaceKeeps(hash, s, c);
    case Finish(c) => FinishKeeps(hash, s, c);
    case _ => MailKeeps(hash, s, a);
  }

  lemma {:induction false} RunKeepsInv(hash: Key -> int, run: seq<State>, acts: seq<Action>, i: nat)
    requires IsRun(hash, run, acts) && i < |run|
    ensures Inv(hash, run[i])
  {
    if i > 0 {
      RunKeepsInv(hash, run, acts, i - 1);
      ApplyKeeps(hash, run[i - 1], acts[i - 1]);
      assert run[i - 1 + 1] == Apply(hash, run[i - 1], acts[i - 1]);
    }
  }

  lemma {:induction false} RunGrows(hash: Key -> int, run: seq<State>, acts: seq<Action>, i: nat, j: nat)
    requires IsRun(hash, run, acts) && i <= j < |run|
    ensures forall path :: path in run[i].records ==> path in run[j].records && run[j].records[path] == run[i].records[path]
  {
    hide Apply, Enabled;
    if i < j {
      RunGrows(hash, run, acts, i, j - 1);
      ApplyGrows(hash, run[j - 1], acts[j - 1]);
      assert run[j - 1 + 1] == Apply(hash, run[j - 1], acts[j - 1]);
    }
  }
}
