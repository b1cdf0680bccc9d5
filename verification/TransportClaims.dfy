/** What the request/reply transport of src/request.rs promises over whole runs. */
module TransportClaims {
  import opened Transport

  // ----- status -----

  datatype Status = Pending(filename: Filename) | Replied(reply: Envelope) | Conflict

  /** The filter `status` puts on every message of the principal's boxes. */
  predicate Matches(record: Record, key: Key, m: Message) {
    && m.inReplyTo == Some(record.filename) && m.body.Some? && m.body.value.Reply?
    && m.body.value.version == REQUEST_VERSION && m.body.value.key == key
    && m.body.value.requestFilename == record.filename && m.body.value.from == record.to
    && m.from == m.body.value.from && ReplyTag in m.tags
  }

  /** What a listing of messages means: nothing matched, one reply however often, or two different ones. */
  ghost predicate Outcome(record: Record, key: Key, listing: seq<Message>, status: Status) {
    match status
    case Pending(filename) => filename == record.filename && forall m :: m in listing ==> !Matches(record, key, m)
    case Replied(reply) =>
      && (exists m :: m in listing && Matches(record, key, m))
      && (forall m :: m in listing && Matches(record, key, m) ==> m.body.value == reply)
    case Conflict =>
      exists m, m' :: m in listing && m' in listing && Matches(record, key, m) && Matches(record, key, m') && m.body != m'.body
  }

  /** A reply that is reported is the body of a listed message that answers the recorded request, from its recipient. */
  lemma RepliedMeans(record: Record, key: Key, listing: seq<Message>, status: Status)
    requires Outcome(record, key, listing, status) && status.Replied?
    ensures exists m :: && m in listing && m.body == Some(status.reply) && m.inReplyTo == Some(record.filename)
                        && m.from == record.to && ReplyTag in m.tags
    ensures status.reply.Reply? && status.reply.version == REQUEST_VERSION && status.reply.key == key
    ensures status.reply.requestFilename == record.filename && status.reply.from == record.to
  {
    var m :| m in listing && Matches(record, key, m);
    assert m.body == Some(status.reply);
  }

  /** `dedup_by`: drop an element equal to the one before it. */
  function Dedup(s: seq<Envelope>): seq<Envelope> {
    if |s| <= 1 then s
    else if s[0] == s[1] then Dedup(s[1..])
    else [s[0]] + Dedup(s[1..])
  }

  lemma {:induction false} DedupMeaning(s: seq<Envelope>)
    ensures |Dedup(s)| == 0 <==> s == []
    ensures s != [] ==> Dedup(s)[0] == s[0]
    ensures |Dedup(s)| <= 1 <==> forall i :: 0 <= i < |s| ==> s[i] == s[0]
  {
    if |s| > 1 {
      DedupMeaning(s[1..]);
      assert s[1..][0] == s[1];
      assert (forall i :: 0 <= i < |s| ==> s[i] == s[0]) <==> s[0] == s[1] && forall i :: 0 <= i < |s[1..]| ==> s[1..][i] == s[1..][0];
    }
  }

  /** `status` after its record has been read: one pass over the inbox listing, one over the archive listing. */
  method ReadStatus(record: Record, key: Key, inbox: seq<Message>, archive: seq<Message>) returns (status: Status)
    ensures Outcome(record, key, inbox + archive, status)
  {
    var replies: seq<Envelope> := [];
    ghost var from: seq<Message> := [];
    for d := 0 to 2
      invariant |from| == |replies|
      invariant forall i :: 0 <= i < |from| ==> from[i] in inbox + archive && Matches(record, key, from[i]) && from[i].body == Some(replies[i])
      invariant d > 0 ==> forall m :: m in inbox && Matches(record, key, m) ==> m in from
      invariant d > 1 ==> forall m :: m in archive && Matches(record, key, m) ==> m in from
    {
      var listing := if d == 0 then inbox else archive;
      for i := 0 to |listing|
        invariant |from| == |replies|
        invariant forall i :: 0 <= i < |from| ==> from[i] in inbox + archive && Matches(record, key, from[i]) && from[i].body == Some(replies[i])
        invariant d > 0 ==> forall m :: m in inbox && Matches(record, key, m) ==> m in from
        invariant forall k :: 0 <= k < i && Matches(record, key, listing[k]) ==> listing[k] in from
      {
        var candidate := listing[i];
        if Matches(record, key, candidate) {
          assert candidate in inbox + archive;
          replies := replies + [candidate.body.value];
          from := from + [candidate];
        }
      }
    }
    DedupMeaning(replies);
    var distinct := Dedup(replies);
    if |distinct| == 0 {
      status := Pending(record.filename);
    } else if |distinct| == 1 {
      status := Replied(distinct[0]);
      assert from[0] in inbox + archive;
    } else {
      status := Conflict;
      var i :| 0 <= i < |replies| && replies[i] != replies[0];
      assert from[i].body != from[0].body;
    }
  }

  /** A directory listing of one box. */
  ghost predicate Lists(boxes: Boxes, box: Id, listing: seq<Message>) {
    && (forall name :: (box, name) in boxes ==> boxes[(box, name)] in listing)
    && (forall m :: m in listing ==> exists name :: (box, name) in boxes && boxes[(box, name)] == m)
  }

  /** One `status` call over a run: the record is read first, then the inbox, then the archive, at ever later moments. */
  datatype StatusCall = StatusCall(principal: Id, key: Key, r: nat, i: nat, j: nat, inbox: seq<Message>, archive: seq<Message>, status: Status)

  ghost predicate StatusRan(hash: Key -> int, run: seq<State>, q: StatusCall) {
    && q.r <= q.i <= q.j < |run|
    && Path(Outgoing(q.principal), hash(q.key)) in run[q.r].records
    && Lists(run[q.i].inbox, q.principal, q.inbox) && Lists(run[q.j].archive, q.principal, q.archive)
    && Outcome(run[q.r].records[Path(Outgoing(q.principal), hash(q.key))], q.key, q.inbox + q.archive, q.status)
  }

  /** A matching reply in either listing is the rendering of the one reply record for its agent, principal and key. */
  lemma MatchIsTheReply(hash: Key -> int, run: seq<State>, acts: seq<Action>, q: StatusCall, m: Message)
    requires IsRun(hash, run, acts) && StatusRan(hash, run, q) && m in q.inbox + q.archive
    requires Matches(run[q.r].records[Path(Outgoing(q.principal), hash(q.key))], q.key, m)
    ensures Path(Replies(m.from), hash(StateKeyOfReply(q.principal, q.key))) in run[q.j].records
    ensures m == run[q.j].records[Path(Replies(m.from), hash(StateKeyOfReply(q.principal, q.key)))].rendered
  {
    hide Apply, Enabled;
    RunKeepsInv(hash, run, acts, q.i);
    RunKeepsInv(hash, run, acts, q.j);
    RunGrows(hash, run, acts, q.i, q.j);
    assert m in q.inbox || m in q.archive;
    if m in q.inbox {
      var name :| (q.principal, name) in run[q.i].inbox && run[q.i].inbox[(q.principal, name)] == m;
      assert Owned(hash, run[q.i], q.principal, name, m);
    } else {
      var name :| (q.principal, name) in run[q.j].archive && run[q.j].archive[(q.principal, name)] == m;
      assert Owned(hash, run[q.j], q.principal, name, m);
    }
  }

  /** Over every run, with crashes, retries and archiving in between, `status` never finds conflicting replies. */
  lemma StatusNeverConflicts(hash: Key -> int, run: seq<State>, acts: seq<Action>, q: StatusCall)
    requires IsRun(hash, run, acts) && StatusRan(hash, run, q)
    ensures !q.status.Conflict?
  {
    hide Apply, Enabled, IsRun;
    if q.status.Conflict? {
      var record := run[q.r].records[Path(Outgoing(q.principal), hash(q.key))];
      var m, m' :| m in q.inbox + q.archive && m' in q.inbox + q.archive
                   && Matches(record, q.key, m) && Matches(record, q.key, m') && m.body != m'.body;
      MatchIsTheReply(hash, run, acts, q, m);
      MatchIsTheReply(hash, run, acts, q, m');
    }
  }

  // ----- persistence, under fresh names -----

  /** Every generated name stands for one message in one box, wherever it appears. */
  ghost predicate NamesFit(s: State) {
    && (forall box, name :: (box, name) in s.inbox ==> name in s.names && s.names[name] == (box, s.inbox[(box, name)]))
    && (forall box, name :: (box, name) in s.archive ==> name in s.names && s.names[name] == (box, s.archive[(box, name)]))
    && (forall path :: path in s.records ==>
          s.records[path].filename in s.names && s.names[s.records[path].filename] == (s.records[path].to, s.records[path].rendered))
  }

  lemma ReserveKeepsNames(hash: Key -> int, s: State, c: nat, newName: Filename)
    requires NamesFit(s) && c in s.calls && s.calls[c].Ready? && newName !in s.names
    ensures NamesFit(ReserveRecord(hash, s, c, newName))
  {
    hide Render, RecordPath;
  }

  lemma PlaceKeepsNames(hash: Key -> int, s: State, c: nat)
    requires Inv(hash, s) && NamesFit(s) && c in s.calls && s.calls[c].Reserved?
    ensures NamesFit(PlaceMessage(s, c))
  {
    hide Inv, GoodRecord, GoodSend, RecordPath, BoxesOwned;
    InvParts(hash, s, c);
  }

  lemma NamesStayFit(hash: Key -> int, s: State, a: Action)
    requires Inv(hash, s) && NamesFit(s) && Enabled(s, a) && TakesFreshName(s, a)
    ensures NamesFit(Apply(hash, s, a))
  {
    hide Inv, RequestFor, ReserveRecord, PlaceMessage;
    match a
    case Reserve(c, newName) => ReserveKeepsNames(hash, s, c, newName);
    case Place(c) => PlaceKeepsNames(hash, s, c);
    case _ =>
  }

  ghost predicate Here(s: State, box: Id, name: Filename, m: Message) {
    || ((box, name) in s.inbox && s.inbox[(box, name)] == m)
    || ((box, name) in s.archive && s.archive[(box, name)] == m)
  }

  lemma MessageStaysOneStep(hash: Key -> int, s: State, a: Action, box: Id, name: Filename, m: Message)
    requires NamesFit(s) && Enabled(s, a) && Here(s, box, name, m)
    ensures Here(Apply(hash, s, a), box, name, m)
    ensures forall slot :: slot in s.archive ==> slot in Apply(hash, s, a).archive && Apply(hash, s, a).archive[slot] == s.archive[slot]
  {
    hide RequestFor, SameSend;
  }

  lemma {:induction false} FreshRunFits(hash: Key -> int, run: seq<State>, acts: seq<Action>, i: nat)
    requires IsFreshRun(hash, run, acts) && i < |run|
    ensures NamesFit(run[i])
  {
    hide Apply, Enabled, TakesFreshName, Inv;
    if i > 0 {
      FreshRunFits(hash, run, acts, i - 1);
      RunKeepsInv(hash, run, acts, i - 1);
      NamesStayFit(hash, run[i - 1], acts[i - 1]);
      assert run[i - 1 + 1] == Apply(hash, run[i - 1], acts[i - 1]);
    }
  }

  /** A message that is in a principal's boxes once is in them for ever. */
  lemma {:induction false} MessageStays(hash: Key -> int, run: seq<State>, acts: seq<Action>, i: nat, j: nat, box: Id, name: Filename, m: Message)
    requires IsFreshRun(hash, run, acts) && i <= j < |run| && Here(run[i], box, name, m)
    ensures Here(run[j], box, name, m)
    ensures (box, name) in run[i].archive && run[i].archive[(box, name)] == m ==> (box, name) in run[j].archive && run[j].archive[(box, name)] == m
  {
    hide Apply, Enabled, TakesFreshName, NamesFit;
    if i < j {
      MessageStays(hash, run, acts, i, j - 1, box, name, m);
      FreshRunFits(hash, run, acts, j - 1);
      MessageStaysOneStep(hash, run[j - 1], acts[j - 1], box, name, m);
      assert run[j - 1 + 1] == Apply(hash, run[j - 1], acts[j - 1]);
    }
  }

  /** A `status` that starts after a message arrived sees it, although it reads the two boxes at different moments. */
  lemma StatusSees(hash: Key -> int, run: seq<State>, acts: seq<Action>, q: StatusCall, k: nat, name: Filename, m: Message)
    requires IsFreshRun(hash, run, acts) && StatusRan(hash, run, q) && k <= q.i && Here(run[k], q.principal, name, m)
    ensures m in q.inbox + q.archive
  {
    hide IsFreshRun, Outcome;
    MessageStays(hash, run, acts, k, q.i, q.principal, name, m);
    MessageStays(hash, run, acts, q.i, q.j, q.principal, name, m);
  }

  lemma ListedIsHere(hash: Key -> int, run: seq<State>, acts: seq<Action>, q: StatusCall, m: Message) returns (name: Filename)
    requires IsFreshRun(hash, run, acts) && StatusRan(hash, run, q) && m in q.inbox + q.archive
    ensures Here(run[q.j], q.principal, name, m)
  {
    hide IsFreshRun, Outcome;
    assert m in q.inbox || m in q.archive;
    if m in q.inbox {
      name :| (q.principal, name) in run[q.i].inbox && run[q.i].inbox[(q.principal, name)] == m;
      MessageStays(hash, run, acts, q.i, q.j, q.principal, name, m);
    } else {
      name :| (q.principal, name) in run[q.j].archive && run[q.j].archive[(q.principal, name)] == m;
    }
  }

  /** Once `status` has returned a reply, every later `status` for the same key returns that reply. */
  lemma ReplyIsForEver(hash: Key -> int, run: seq<State>, acts: seq<Action>, q: StatusCall, q': StatusCall)
    requires IsFreshRun(hash, run, acts) && StatusRan(hash, run, q) && StatusRan(hash, run, q')
    requires q.principal == q'.principal && q.key == q'.key && q.j <= q'.i && q.status.Replied?
    ensures q'.status == q.status
  {
    var path := Path(Outgoing(q.principal), hash(q.key));
    RunGrows(hash, run, acts, q.r, q.j);
    RunGrows(hash, run, acts, q.r, if q.r <= q'.r then q'.r else q.r);
    RunGrows(hash, run, acts, q'.r, if q.r <= q'.r then q'.r else q.r);
    var record := run[q.r].records[path];
    assert record == run[q'.r].records[path];
    hide IsFreshRun;
    var m :| m in q.inbox + q.archive && Matches(record, q.key, m);
    var name := ListedIsHere(hash, run, acts, q, m);
    StatusSees(hash, run, acts, q', q.j, name, m);
    FreshIsRun(hash, run, acts);
    StatusNeverConflicts(hash, run, acts, q');
  }

  lemma FreshIsRun(hash: Key -> int, run: seq<State>, acts: seq<Action>)
    requires IsFreshRun(hash, run, acts)
    ensures IsRun(hash, run, acts)
  {
  }

  /** End to end: a reply to the recorded request, once in the principal's boxes, is what every later `status` reports. */
  lemma DeliveredReplyIsReported(hash: Key -> int, run: seq<State>, acts: seq<Action>, q: StatusCall, k: nat, name: Filename, m: Message)
    requires IsFreshRun(hash, run, acts) && StatusRan(hash, run, q) && k <= q.i && Here(run[k], q.principal, name, m)
    requires ReplyTag in m.tags && m.body.Some? && m.body.value.key == q.key
    requires var record := run[q.r].records[Path(Outgoing(q.principal), hash(q.key))];
      m.body.value.Reply? && m.body.value.requestFilename == record.filename && m.body.value.from == record.to
    ensures q.status == Replied(m.body.value)
  {
    hide IsFreshRun, IsRun;
    FreshIsRun(hash, run, acts);
    StatusSees(hash, run, acts, q, k, name, m);
    StatusNeverConflicts(hash, run, acts, q);
    TypedReplyMatches(hash, run, acts, k, q.principal, name, m);
  }

  lemma TypedReplyMatches(hash: Key -> int, run: seq<State>, acts: seq<Action>, k: nat, box: Id, name: Filename, m: Message)
    requires IsRun(hash, run, acts) && k < |run| && Here(run[k], box, name, m) && ReplyTag in m.tags && m.body.Some? && m.body.value.Reply?
    ensures m.body.value.version == REQUEST_VERSION && m.from == m.body.value.from && m.inReplyTo == Some(m.body.value.requestFilename)
  {
    hide IsRun;
    RunKeepsInv(hash, run, acts, k);
    assert Owned(hash, run[k], box, name, m);
    var path := OwnerPath(hash, box, m);
    assert GoodRecord(hash, path, run[k].records[path]);
  }

  // ----- receipts and messages -----

  /** All receipts of one state key name one file and one envelope, and at most one of them is a first delivery. */
  lemma ReceiptsAgree(hash: Key -> int, run: seq<State>, acts: seq<Action>, i: nat, a: nat, b: nat)
    requires IsRun(hash, run, acts) && i < |run| && a < b < |run[i].receipts|
    requires run[i].receipts[a].send.dir == run[i].receipts[b].send.dir
    requires run[i].receipts[a].send.stateKey == run[i].receipts[b].send.stateKey
    ensures run[i].receipts[a].filename == run[i].receipts[b].filename
    ensures run[i].receipts[a].send.envelope == run[i].receipts[b].send.envelope
    ensures run[i].receipts[a].deduplicated || run[i].receipts[b].deduplicated
  {
    RunKeepsInv(hash, run, acts, i);
    assert ReceiptFits(hash, run[i], run[i].receipts[a]) && ReceiptFits(hash, run[i], run[i].receipts[b]);
  }

  /** At most one message exists for a record, in one box, under the record's name, with the first envelope. */
  lemma OneMessagePerRecord(hash: Key -> int, run: seq<State>, acts: seq<Action>, i: nat, box: Id, name: Filename, m: Message, box': Id, name': Filename, m': Message)
    requires IsRun(hash, run, acts) && i < |run|
    requires Here(run[i], box, name, m) && Here(run[i], box', name', m') && Typed(m) && Typed(m')
    requires OwnerPath(hash, box, m) == OwnerPath(hash, box', m')
    ensures box == box' && name == name' && m == m'
    ensures OwnerPath(hash, box, m) in run[i].records && m.body == Some(run[i].records[OwnerPath(hash, box, m)].envelope)
  {
    RunKeepsInv(hash, run, acts, i);
    assert Owned(hash, run[i], box, name, m) && Owned(hash, run[i], box', name', m');
    var path := OwnerPath(hash, box, m);
    assert GoodRecord(hash, path, run[i].records[path]);
  }

  /** However the other calls interleave, a matching call always gets its message into the inbox. */
  lemma MatchingCallDelivers(hash: Key -> int, run: seq<State>, acts: seq<Action>, i: nat, c: nat)
    requires IsFreshRun(hash, run, acts) && i < |run| && c in run[i].calls && run[i].calls[c].Reserved?
    requires SameSend(run[i].calls[c].record, run[i].calls[c].send)
    ensures c in Apply(hash, run[i], Place(c)).calls && Apply(hash, run[i], Place(c)).calls[c].Placed?
    ensures var slot := (run[i].calls[c].send.to, run[i].calls[c].record.filename);
      slot in Apply(hash, run[i], Place(c)).inbox && Apply(hash, run[i], Place(c)).inbox[slot] == run[i].calls[c].record.rendered
  {
    hide IsRun, IsFreshRun, Inv;
    FreshIsRun(hash, run, acts);
    RunKeepsInv(hash, run, acts, i);
    FreshRunFits(hash, run, acts, i);
    InvParts(hash, run[i], c);
  }

  /** The record is of another send, or of another version. */
  ghost predicate Differs(record: Record, send: Send) {
    record.version != 1 || record.stateKey != send.stateKey || record.from != send.from || record.to != send.to || record.envelope != send.envelope
  }

  /**
   * However the other calls interleave, no send that differs from the record of its key ever gets a
   * receipt, no call with it gets as far as the inbox, and its own steps leave all files as they are.
   */
  lemma DifferentEnvelopeFails(hash: Key -> int, run: seq<State>, acts: seq<Action>, i: nat, j: nat, send: Send)
    requires IsRun(hash, run, acts) && i <= j < |run|
    requires RecordPath(hash, send) in run[i].records && Differs(run[i].records[RecordPath(hash, send)], send)
    ensures forall k :: 0 <= k < |run[j].receipts| ==> run[j].receipts[k].send != send
    ensures forall c :: c in run[j].calls && run[j].calls[c].send == send ==> !run[j].calls[c].Placed?
    ensures j < |acts| && (acts[j].Reserve? || acts[j].Place?) && run[j].calls[acts[j].call].send == send ==>
      && run[j + 1].records == run[j].records && run[j + 1].receipts == run[j].receipts
      && run[j + 1].inbox == run[j].inbox && run[j + 1].archive == run[j].archive
  {
    RunGrows(hash, run, acts, i, j);
    RunKeepsInv(hash, run, acts, j);
    var s, path := run[j], RecordPath(hash, send);
    assert path in s.records && s.records[path] == run[i].records[path];
    assert !SameSend(s.records[path], send);
    hide SameSend, GoodRecord, BoxesOwned, GoodSend, RecordPath;
    forall k | 0 <= k < |s.receipts| ensures s.receipts[k].send != send {
      assert ReceiptFits(hash, s, s.receipts[k]);
    }
    forall c | c in s.calls && s.calls[c].send == send ensures !s.calls[c].Placed? && (s.calls[c].Reserved? ==> !SameSend(s.calls[c].record, send)) {
      assert CallFits(hash, s, c, s.calls[c]);
    }
    assert j < |acts| ==> Enabled(run[j], acts[j]) && run[j + 1] == Apply(hash, run[j], acts[j]);
  }

  // ----- from the caller's arguments to the reader -----

  /** What is known of a call that sends `send`, running or finished. */
  ghost predicate Sends(s: State, c: nat, send: Send) {
    && c < s.nextCall && (c in s.calls ==> s.calls[c].send == send)
    && forall k :: 0 <= k < |s.receipts| && s.receipts[k].call == c ==> s.receipts[k].send == send
  }

  lemma SendStaysOneStep(hash: Key -> int, s: State, a: Action, c: nat, send: Send)
    requires Enabled(s, a) && Sends(s, c, send)
    ensures Sends(Apply(hash, s, a), c, send)
  {
    hide RequestFor, PublishSend, ReplySend, Candidate, RecordPath, SameSend;
  }

  /** A call keeps what it sends, up to its receipt. */
  lemma {:induction false} SendStays(hash: Key -> int, run: seq<State>, acts: seq<Action>, i: nat, j: nat, send: Send)
    requires IsRun(hash, run, acts) && i < j < |run| && Apply(hash, run[i], acts[i]) == Begin(run[i], send)
    ensures Sends(run[j], run[i].nextCall, send)
    decreases j - i
  {
    assert Enabled(run[j - 1], acts[j - 1]) && run[j - 1 + 1] == Apply(hash, run[j - 1], acts[j - 1]);
    if j == i + 1 {
      RunKeepsInv(hash, run, acts, i);
      hide BoxesOwned, GoodRecord, CallFits, ReceiptFits, Apply;
    } else {
      SendStays(hash, run, acts, i, j - 1, send);
      SendStaysOneStep(hash, run[j - 1], acts[j - 1], run[i].nextCall, send);
    }
  }

  /** The record behind a receipt holds exactly what the call sent. */
  lemma ReceiptRecord(hash: Key -> int, run: seq<State>, acts: seq<Action>, i: nat, j: nat, k: nat, send: Send)
    requires IsRun(hash, run, acts) && i < j < |run| && Apply(hash, run[i], acts[i]) == Begin(run[i], send)
    requires k < |run[j].receipts| && run[j].receipts[k].call == run[i].nextCall && GoodSend(send)
    ensures run[j].receipts[k].send == send && RecordPath(hash, send) in run[j].records
    ensures var record := run[j].records[RecordPath(hash, send)];
      && record.from == send.from && record.to == send.to && record.stateKey == send.stateKey && record.envelope == send.envelope
      && record.filename == run[j].receipts[k].filename
      && record.rendered == Message(send.from, send.subject, send.inReplyTo, [send.tag], Some(send.envelope))
  {
    SendStays(hash, run, acts, i, j, send);
    RunKeepsInv(hash, run, acts, j);
    hide IsRun, Apply;
    assert ReceiptFits(hash, run[j], run[j].receipts[k]);
    var path := RecordPath(hash, send);
    assert GoodRecord(hash, path, run[j].records[path]);
  }

  /** A published request is recorded with the tags and the body it was given. */
  lemma PublishCarriesItsArguments(hash: Key -> int, run: seq<State>, acts: seq<Action>, i: nat, j: nat, k: nat)
    requires IsRun(hash, run, acts) && i < j < |run| && acts[i].StartPublish?
    requires k < |run[j].receipts| && run[j].receipts[k].call == run[i].nextCall
    ensures var StartPublish(principal, to, key, tags, body) := acts[i];
      var path := Path(Outgoing(principal), hash(key));
      && path in run[j].records && run[j].records[path].to == to && run[j].records[path].filename == run[j].receipts[k].filename
      && run[j].records[path].rendered ==
         Message(principal, "request " + key, None, [RequestTag], Some(Request(REQUEST_VERSION, key, principal, to, principal, tags, body)))
      && run[j].receipts[k].send.receiptKey == key && run[j].receipts[k].send.to == to && RecordPath(hash, run[j].receipts[k].send) == path
  {
    var StartPublish(principal, to, key, tags, body) := acts[i];
    ReceiptRecord(hash, run, acts, i, j, k, PublishSend(principal, to, key, tags, body));
  }

  /** The request a reply answers: a well-formed one, in the agent's boxes under the given name. */
  ghost predicate Answers(s: State, agent: Id, filename: Filename, request: Envelope) {
    exists m :: && Here(s, agent, filename, m) && m.body == Some(request) && m.from == request.from
                && RequestTag in m.tags && m.inReplyTo.None?
                && request.Request? && request.version == REQUEST_VERSION && request.to == agent && request.from == request.replyTo
  }

  /** A reply goes to the sender of the request it answers and is recorded with the tags and the body it was given. */
  lemma ReplyCarriesItsArguments(hash: Key -> int, run: seq<State>, acts: seq<Action>, i: nat, j: nat, k: nat) returns (request: Envelope)
    requires IsRun(hash, run, acts) && i < j < |run| && acts[i].StartReply?
    requires k < |run[j].receipts| && run[j].receipts[k].call == run[i].nextCall
    ensures var StartReply(agent, filename, tags, body) := acts[i];
      && Answers(run[i], agent, filename, request) && request.Request?
      && var path := Path(Replies(agent), hash(request.replyTo + "\0" + request.key));
         && path in run[j].records && run[j].records[path].to == request.replyTo
         && run[j].records[path].filename == run[j].receipts[k].filename
         && run[j].records[path].rendered ==
            Message(agent, "re: request " + request.key, Some(filename), [ReplyTag],
                    Some(Reply(REQUEST_VERSION, request.key, filename, agent, tags, body)))
         && run[j].receipts[k].send.receiptKey == request.key && run[j].receipts[k].send.to == request.replyTo
         && RecordPath(hash, run[j].receipts[k].send) == path
  {
    var StartReply(agent, filename, tags, body) := acts[i];
    assert Enabled(run[i], acts[i]);
    request := RequestFor(run[i], agent, filename).value;
    RequestIsAnswered(run[i], agent, filename);
    ReceiptRecord(hash, run, acts, i, j, k, ReplySend(agent, filename, request, tags, body));
  }

  lemma RequestIsAnswered(s: State, agent: Id, filename: Filename)
    requires RequestFor(s, agent, filename).Some?
    ensures Answers(s, agent, filename, RequestFor(s, agent, filename).value)
  {
    var m := ReadInboxOrArchive(s, agent, filename).value;
    assert Here(s, agent, filename, m);
  }

  /** Replies of one agent to different principals or keys have different state keys. */
  lemma {:induction false} StateKeysDiffer(a: Id, k: Key, b: Id, l: Key)
    requires '\0' !in a && '\0' !in b && StateKeyOfReply(a, k) == StateKeyOfReply(b, l)
    ensures a == b && k == l
  {
    var x, y := StateKeyOfReply(a, k), StateKeyOfReply(b, l);
    assert x[|a|] == '\0' && y[|b|] == '\0';
    assert forall i :: 0 <= i < |a| ==> x[i] == a[i];
    assert forall i :: 0 <= i < |b| ==> y[i] == b[i];
    assert |a| == |b|;
    assert a == x[..|a|] == y[..|b|] == b && k == x[|a| + 1..] == y[|b| + 1..] == l;
  }

  /** Messages that calls have placed are in the boxes. */
  ghost predicate Delivered(hash: Key -> int, s: State) {
    && (forall c :: c in s.calls && s.calls[c].Placed? ==> Here(s, s.calls[c].send.to, s.calls[c].record.filename, s.calls[c].record.rendered))
    && (forall k :: 0 <= k < |s.receipts| ==> Arrived(hash, s, s.receipts[k]))
  }

  ghost predicate Arrived(hash: Key -> int, s: State, r: Receipt) {
    var path := RecordPath(hash, r.send);
    path in s.records && Here(s, r.send.to, r.filename, s.records[path].rendered)
  }

  lemma ArrivedStays(hash: Key -> int, s: State, a: Action, r: Receipt)
    requires NamesFit(s) && Enabled(s, a) && Arrived(hash, s, r)
    ensures Arrived(hash, Apply(hash, s, a), r)
  {
    hide NamesFit, Enabled, Apply, Here, RecordPath;
    ApplyGrows(hash, s, a);
    MessageStaysOneStep(hash, s, a, r.send.to, r.filename, s.records[RecordPath(hash, r.send)].rendered);
  }

  lemma PlacedIsHere(s: State, c: nat)
    requires c in s.calls && s.calls[c].Reserved?
    ensures var t := PlaceMessage(s, c);
      c in t.calls ==> Here(t, t.calls[c].send.to, t.calls[c].record.filename, t.calls[c].record.rendered)
  {
    hide SameSend;
  }

  /** A call that is placed after a step was placed before, or its message is here. */
  lemma PlacedAfter(hash: Key -> int, s: State, a: Action, c: nat)
    requires Enabled(s, a) && c in Apply(hash, s, a).calls && Apply(hash, s, a).calls[c].Placed?
    ensures var t := Apply(hash, s, a);
      (c in s.calls && s.calls[c] == t.calls[c]) || Here(t, t.calls[c].send.to, t.calls[c].record.filename, t.calls[c].record.rendered)
  {
    hide RequestFor, PublishSend, ReplySend, RecordPath, PlaceMessage, ReserveRecord, Here;
    match a
    case Place(d) =>
      PlaceFrame(s, d);
      PlacedIsHere(s, d);
    case Reserve(d, newName) => ReserveFrame(hash, s, d, newName);
    case _ =>
  }

  lemma ReceiptsAfter(hash: Key -> int, s: State, a: Action)
    requires Enabled(s, a)
    ensures var t := Apply(hash, s, a);
      if a.Finish? then
        && s.calls[a.call].Placed? && t.records == s.records && t.inbox == s.inbox && t.archive == s.archive
        && |t.receipts| == |s.receipts| + 1 && t.receipts[..|s.receipts|] == s.receipts
        && t.receipts[|s.receipts|].send == s.calls[a.call].send && t.receipts[|s.receipts|].filename == s.calls[a.call].record.filename
      else t.receipts == s.receipts
  {
    hide RequestFor, PublishSend, ReplySend, Candidate, RecordPath, SameSend;
  }

  lemma DeliveredOneStep(hash: Key -> int, s: State, a: Action)
    requires Inv(hash, s) && NamesFit(s) && Delivered(hash, s) && Enabled(s, a)
    ensures Delivered(hash, Apply(hash, s, a))
  {
    hide NamesFit, Enabled, Apply, Here, RecordPath, BoxesOwned, GoodRecord, ReceiptFits;
    var t := Apply(hash, s, a);
    forall c | c in t.calls && t.calls[c].Placed? ensures Here(t, t.calls[c].send.to, t.calls[c].record.filename, t.calls[c].record.rendered) {
      PlacedAfter(hash, s, a, c);
      if c in s.calls && s.calls[c] == t.calls[c] {
        MessageStaysOneStep(hash, s, a, t.calls[c].send.to, t.calls[c].record.filename, t.calls[c].record.rendered);
      }
    }
    ReceiptsAfter(hash, s, a);
    forall k | 0 <= k < |t.receipts| ensures Arrived(hash, t, t.receipts[k]) {
      if k < |s.receipts| {
        assert t.receipts[k] == s.receipts[k];
        ArrivedStays(hash, s, a, s.receipts[k]);
      } else {
        FinishedArrived(hash, s, a, t.receipts[k]);
      }
    }
  }

  lemma FinishedArrived(hash: Key -> int, s: State, a: Action, r: Receipt)
    requires Inv(hash, s) && Delivered(hash, s) && Enabled(s, a) && a.Finish?
    requires r.send == s.calls[a.call].send && r.filename == s.calls[a.call].record.filename
    ensures Arrived(hash, Apply(hash, s, a), r)
  {
    hide RecordPath, BoxesOwned, GoodRecord, ReceiptFits, GoodSend, SameSend;
    assert CallFits(hash, s, a.call, s.calls[a.call]);
  }

  /** A receipt means the message is in the recipient's boxes, then and for ever. */
  lemma {:induction false} ReceiptMeansDelivered(hash: Key -> int, run: seq<State>, acts: seq<Action>, j: nat)
    requires IsFreshRun(hash, run, acts) && j < |run|
    ensures Delivered(hash, run[j])
  {
    hide Apply, Enabled, TakesFreshName, Inv, NamesFit, Arrived;
    if j > 0 {
      ReceiptMeansDelivered(hash, run, acts, j - 1);
      RunKeepsInv(hash, run, acts, j - 1);
      FreshRunFits(hash, run, acts, j - 1);
      DeliveredOneStep(hash, run[j - 1], acts[j - 1]);
      assert run[j - 1 + 1] == Apply(hash, run[j - 1], acts[j - 1]);
    }
  }

  /** Once a request has its receipt, the recipient's boxes hold exactly the tags and the body the principal gave. */
  lemma RequestIsDelivered(hash: Key -> int, run: seq<State>, acts: seq<Action>, i: nat, j: nat, k: nat, l: nat)
    requires IsFreshRun(hash, run, acts) && i < j <= l < |run| && acts[i].StartPublish?
    requires k < |run[j].receipts| && run[j].receipts[k].call == run[i].nextCall
    ensures var StartPublish(principal, to, key, tags, body) := acts[i];
      Here(run[l], to, run[j].receipts[k].filename,
           Message(principal, "request " + key, None, [RequestTag], Some(Request(REQUEST_VERSION, key, principal, to, principal, tags, body))))
  {
    FreshIsRun(hash, run, acts);
    hide IsFreshRun, IsRun, RecordPath, Here;
    PublishCarriesItsArguments(hash, run, acts, i, j, k);
    ReceiptMeansDelivered(hash, run, acts, j);
    assert Arrived(hash, run[j], run[j].receipts[k]);
    var StartPublish(principal, to, key, tags, body) := acts[i];
    MessageStays(hash, run, acts, j, l, to, run[j].receipts[k].filename, run[j].records[Path(Outgoing(principal), hash(key))].rendered);
  }

  /** So from then on the recipient can reply to exactly that request, under the name of the receipt. */
  lemma RequestCanBeAnswered(hash: Key -> int, run: seq<State>, acts: seq<Action>, i: nat, j: nat, k: nat, l: nat)
    requires IsFreshRun(hash, run, acts) && i < j <= l < |run| && acts[i].StartPublish?
    requires k < |run[j].receipts| && run[j].receipts[k].call == run[i].nextCall
    ensures var StartPublish(principal, to, key, tags, body) := acts[i];
      RequestFor(run[l], to, run[j].receipts[k].filename) == Some(Request(REQUEST_VERSION, key, principal, to, principal, tags, body))
  {
    RequestIsDelivered(hash, run, acts, i, j, k, l);
    FreshRunFits(hash, run, acts, l);
    hide IsFreshRun;
  }

  /** The record of a request that an agent can read under a name is the one its sender's `status` reads. */
  lemma RequestRecord(hash: Key -> int, run: seq<State>, acts: seq<Action>, i: nat, agent: Id, filename: Filename, request: Envelope)
    requires IsRun(hash, run, acts) && i < |run| && Answers(run[i], agent, filename, request) && request.Request?
    ensures var path := Path(Outgoing(request.replyTo), hash(request.key));
      path in run[i].records && run[i].records[path].filename == filename && run[i].records[path].to == agent
  {
    RunKeepsInv(hash, run, acts, i);
    hide IsRun;
    var m :| Here(run[i], agent, filename, m) && m.body == Some(request) && m.from == request.from && RequestTag in m.tags && m.inReplyTo.None?;
    assert Owned(hash, run[i], agent, filename, m);
    var path := OwnerPath(hash, agent, m);
    assert GoodRecord(hash, path, run[i].records[path]);
  }

  /**
   * End to end: once a reply has its receipt, every later `status` of the request's sender on that
   * key returns exactly the tags and the body the agent gave.
   */
  lemma ReplyIsReported(hash: Key -> int, run: seq<State>, acts: seq<Action>, i: nat, j: nat, k: nat, q: StatusCall) returns (request: Envelope)
    requires IsFreshRun(hash, run, acts) && i < j < |run| && acts[i].StartReply? && StatusRan(hash, run, q) && j <= q.i
    requires k < |run[j].receipts| && run[j].receipts[k].call == run[i].nextCall
    ensures Answers(run[i], acts[i].agent, acts[i].filename, request) && request.Request?
    ensures q.principal == request.replyTo && q.key == request.key ==>
      q.status == Replied(Reply(REQUEST_VERSION, q.key, acts[i].filename, acts[i].agent, acts[i].tags, acts[i].body))
  {
    FreshIsRun(hash, run, acts);
    hide IsFreshRun, IsRun, Answers, RecordPath, Arrived, StatusRan;
    request := ReplyCarriesItsArguments(hash, run, acts, i, j, k);
    ReceiptMeansDelivered(hash, run, acts, j);
    if q.principal == request.replyTo && q.key == request.key {
      RequestRecord(hash, run, acts, i, acts[i].agent, acts[i].filename, request);
      ReportsWhatArrived(hash, run, acts, i, j, k, q, request);
    }
  }

  lemma ReportsWhatArrived(hash: Key -> int, run: seq<State>, acts: seq<Action>, i: nat, j: nat, k: nat, q: StatusCall, request: Envelope)
    requires IsFreshRun(hash, run, acts) && i < j < |run| && acts[i].StartReply? && StatusRan(hash, run, q) && j <= q.i && request.Request?
    requires q.principal == request.replyTo && q.key == request.key && k < |run[j].receipts| && Arrived(hash, run[j], run[j].receipts[k])
    requires RecordPath(hash, run[j].receipts[k].send) == Path(Replies(acts[i].agent), hash(request.replyTo + "\0" + request.key))
    requires run[j].receipts[k].send.to == request.replyTo
    requires run[j].records[RecordPath(hash, run[j].receipts[k].send)].rendered.body ==
             Some(Reply(REQUEST_VERSION, request.key, acts[i].filename, acts[i].agent, acts[i].tags, acts[i].body))
    requires ReplyTag in run[j].records[RecordPath(hash, run[j].receipts[k].send)].rendered.tags
    requires var path := Path(Outgoing(request.replyTo), hash(request.key));
      path in run[i].records && run[i].records[path].filename == acts[i].filename && run[i].records[path].to == acts[i].agent
    ensures q.status == Replied(Reply(REQUEST_VERSION, q.key, acts[i].filename, acts[i].agent, acts[i].tags, acts[i].body))
  {
    var path := Path(Outgoing(q.principal), hash(q.key));
    FreshIsRun(hash, run, acts);
    var later := if q.r <= i then i else q.r;
    RunGrows(hash, run, acts, i, later);
    RunGrows(hash, run, acts, q.r, later);
    assert run[q.r].records[path] == run[i].records[path];
    hide IsFreshRun, IsRun, Outcome, RecordPath;
    var m := run[j].records[RecordPath(hash, run[j].receipts[k].send)].rendered;
    DeliveredReplyIsReported(hash, run, acts, q, j, run[j].receipts[k].filename, m);
  }

  // ----- one undisturbed call -----

  function AfterReserve(hash: Key -> int, s: State, send: Send, newName: Filename): (t: State)
    ensures s.nextCall in t.calls && t.calls[s.nextCall].Reserved?
  {
    ReserveRecord(hash, Begin(s, send), s.nextCall, newName)
  }

  lemma AfterReserveMeaning(hash: Key -> int, s: State, send: Send, newName: Filename)
    ensures var path := RecordPath(hash, send);
      var record := if path in s.records then s.records[path] else Candidate(send, newName);
      var t := AfterReserve(hash, s, send, newName);
      && t.records == s.records[path := record] && t.inbox == s.inbox && t.archive == s.archive && t.receipts == s.receipts
      && t.calls[s.nextCall] == Reserved(send, record, path !in s.records)
  {
    hide Candidate, RecordPath;
    var path := RecordPath(hash, send);
    assert path in s.records ==> s.records[path := s.records[path]] == s.records;
  }

  /** The four steps of one call with nothing in between. */
  function Alone(hash: Key -> int, s: State, send: Send, newName: Filename): State {
    PlaceAndFinish(AfterReserve(hash, s, send, newName), s.nextCall)
  }

  function PlaceAndFinish(s: State, c: nat): State
    requires c in s.calls && s.calls[c].Reserved?
  {
    var placed := PlaceMessage(s, c);
    if c in placed.calls && placed.calls[c].Placed? then FinishCall(placed, c) else placed
  }

  lemma PlaceAndFinishMeaning(s: State, c: nat)
    requires c in s.calls && s.calls[c].Reserved?
    ensures var Reserved(send, record, created) := s.calls[c];
      var slot := (send.to, record.filename);
      var ok := SameSend(record, send) && (slot in s.inbox ==> s.inbox[slot] == record.rendered);
      var t := PlaceAndFinish(s, c);
      && t.records == s.records && t.archive == s.archive
      && t.inbox == (if ok then s.inbox[slot := record.rendered] else s.inbox)
      && t.receipts == (if ok then s.receipts + [Receipt(c, send, record.filename, !created || slot in s.inbox)] else s.receipts)
  {
    hide SameSend;
    var Reserved(send, record, created) := s.calls[c];
    var slot := (send.to, record.filename);
    var placed := PlaceMessage(s, c);
    if SameSend(record, send) && (slot in s.inbox ==> s.inbox[slot] == record.rendered) {
      assert placed.calls[c] == Placed(send, record, created, slot !in s.inbox);
    } else {
      assert c !in placed.calls;
    }
  }

  /** What an undisturbed call does to the files, and when it succeeds. */
  lemma AloneMeaning(hash: Key -> int, s: State, send: Send, newName: Filename)
    ensures var path := RecordPath(hash, send);
      var record := if path in s.records then s.records[path] else Candidate(send, newName);
      var slot := (send.to, record.filename);
      var ok := SameSend(record, send) && (slot in s.inbox ==> s.inbox[slot] == record.rendered);
      var t := Alone(hash, s, send, newName);
      && t.records == s.records[path := record] && t.archive == s.archive
      && t.inbox == (if ok then s.inbox[slot := record.rendered] else s.inbox)
      && t.receipts == (if ok then s.receipts + [Receipt(s.nextCall, send, record.filename, path in s.records || slot in s.inbox)] else s.receipts)
  {
    hide SameSend, Candidate, RecordPath, AfterReserve, PlaceAndFinish;
    AfterReserveMeaning(hash, s, send, newName);
    PlaceAndFinishMeaning(AfterReserve(hash, s, send, newName), s.nextCall);
  }

  /** An undisturbed call with a different envelope under a taken key leaves records and boxes alone and yields no receipt. */
  lemma DifferentEnvelopeAlone(hash: Key -> int, s: State, send: Send, newName: Filename)
    requires RecordPath(hash, send) in s.records && Differs(s.records[RecordPath(hash, send)], send)
    ensures var t := Alone(hash, s, send, newName);
      t.records == s.records && t.inbox == s.inbox && t.archive == s.archive && t.receipts == s.receipts
  {
    hide Alone, Candidate, RecordPath;
    AloneMeaning(hash, s, send, newName);
    var path := RecordPath(hash, send);
    assert s.records[path := s.records[path]] == s.records;
  }

  /** The first publication under a key, undisturbed, puts the request into the inbox and is no duplicate. */
  lemma FirstPublicationDelivers(hash: Key -> int, run: seq<State>, acts: seq<Action>, i: nat,
                                 principal: Id, to: Id, key: Key, tags: Tags, body: string, newName: Filename)
    requires IsFreshRun(hash, run, acts) && i < |run| && newName !in run[i].names
    requires Path(Outgoing(principal), hash(key)) !in run[i].records
    ensures var send := PublishSend(principal, to, key, tags, body);
      var message := Message(principal, "request " + key, None, [RequestTag], Some(Request(1, key, principal, to, principal, tags, body)));
      var t := Alone(hash, run[i], send, newName);
      && t.inbox == run[i].inbox[(to, newName) := message] && t.archive == run[i].archive
      && t.receipts == run[i].receipts + [Receipt(run[i].nextCall, send, newName, false)]
      && (forall path :: path in run[i].records ==> path in t.records && t.records[path] == run[i].records[path])
  {
    FreshRunFits(hash, run, acts, i);
    hide IsFreshRun, Alone;
    AloneMeaning(hash, run[i], PublishSend(principal, to, key, tags, body), newName);
    assert (to, newName) !in run[i].inbox;
  }

  /** The first reply of an agent to a request, undisturbed, puts the reply into the inbox of the sender and is no duplicate. */
  lemma FirstReplyDelivers(hash: Key -> int, run: seq<State>, acts: seq<Action>, i: nat,
                           agent: Id, filename: Filename, request: Envelope, tags: Tags, body: string, newName: Filename)
    requires IsFreshRun(hash, run, acts) && i < |run| && newName !in run[i].names
    requires RequestFor(run[i], agent, filename) == Some(request)
    requires Path(Replies(agent), hash(request.replyTo + "\0" + request.key)) !in run[i].records
    ensures var send := ReplySend(agent, filename, request, tags, body);
      var message := Message(agent, "re: request " + request.key, Some(filename), [ReplyTag], Some(Reply(1, request.key, filename, agent, tags, body)));
      var t := Alone(hash, run[i], send, newName);
      && t.inbox == run[i].inbox[(request.replyTo, newName) := message] && t.archive == run[i].archive
      && t.receipts == run[i].receipts + [Receipt(run[i].nextCall, send, newName, false)]
      && (forall path :: path in run[i].records ==> path in t.records && t.records[path] == run[i].records[path])
  {
    FreshRunFits(hash, run, acts, i);
    hide IsFreshRun, Alone, RequestFor;
    AloneMeaning(hash, run[i], ReplySend(agent, filename, request, tags, body), newName);
    assert (request.replyTo, newName) !in run[i].inbox;
  }

  /** An exact retry completes an interrupted delivery: same name, same bytes, marked as a duplicate. */
  lemma ExactRetryCompletes(hash: Key -> int, run: seq<State>, acts: seq<Action>, i: nat, send: Send, newName: Filename)
    requires IsFreshRun(hash, run, acts) && i < |run|
    requires RecordPath(hash, send) in run[i].records && !Differs(run[i].records[RecordPath(hash, send)], send)
    ensures var record := run[i].records[RecordPath(hash, send)];
      var t := Alone(hash, run[i], send, newName);
      && t.records == run[i].records && t.archive == run[i].archive
      && t.inbox == run[i].inbox[(send.to, record.filename) := record.rendered]
      && t.receipts == run[i].receipts + [Receipt(run[i].nextCall, send, record.filename, true)]
  {
    FreshRunFits(hash, run, acts, i);
    hide IsFreshRun, Alone, Candidate, RecordPath;
    AloneMeaning(hash, run[i], send, newName);
    var path := RecordPath(hash, send);
    assert run[i].records[path := run[i].records[path]] == run[i].records;
  }

  /** `publish_once` on the files themselves. */
  class Files {
    var records: map<Path, Record>
    var inbox: Boxes

    constructor ()
      ensures records == map[] && inbox == map[]
    {
      records, inbox := map[], map[];
    }

    /** The file effects and the receipt of one call are those of the four steps. */
    method PublishOnce(hash: Key -> int, send: Send, newName: Filename, ghost s: State) returns (ok: bool, filename: Filename, deduplicated: bool)
      requires s.records == records && s.inbox == inbox
      modifies this
      ensures records == Alone(hash, s, send, newName).records && inbox == Alone(hash, s, send, newName).inbox
      ensures Alone(hash, s, send, newName).receipts ==
              if ok then s.receipts + [Receipt(s.nextCall, send, filename, deduplicated)] else s.receipts
    {
      hide Alone, SameSend, Candidate, RecordPath;
      AloneMeaning(hash, s, send, newName);
      var path := RecordPath(hash, send);
      var record := Candidate(send, newName);
      var created := path !in records;
      if created {
        records := records[path := record];
      } else {
        record := records[path];
      }
      ok, filename, deduplicated := false, record.filename, false;
      if !SameSend(record, send) {
        return;
      }
      var slot := (send.to, record.filename);
      var messageCreated := slot !in inbox;
      if messageCreated {
        inbox := inbox[slot := record.rendered];
      } else if inbox[slot] != record.rendered {
        return;
      }
      ok, deduplicated := true, !created || !messageCreated;
    }
  }
}
