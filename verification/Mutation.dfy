/** A mutation request: what is admitted, the write, what is reported, and the notification that follows. */
module Mutation {
  import opened Types
  import opened Keys
  import opened Store
  import opened Postgres
  import Protocol
  import KeyCodec

  datatype Kind = NotifyOnly | PutKind | DeleteKind

  datatype Command = Command(kind: Kind, key: Key, value: Bytes, expected: int, version: nat)

  /** How the call to the store ends: normally, failing before the statement, or after it committed. */
  datatype Fault = NoFault | LostRequest | LostResponse

  datatype StoreReply = Version(v: int) | PreconditionFailed | SourceError

  /** The broadcast either fails outright or reports whether every known member acknowledged. */
  datatype Broadcast = BroadcastError | Report(complete: bool)

  datatype Note = NoNote | RefreshFirst | CommitUnknown

  datatype Outcome = Outcome(
    committed: Option<bool>, version: Option<int>, report: Option<bool>, note: Note,
    writeFailed: bool, broadcastFailed: bool)

  function AsWrite(c: Command): Write
    requires !c.kind.NotifyOnly?
  {
    if c.kind.PutKind? then PutIf(c.key, c.value, c.expected) else DeleteIf(c.key, c.expected)
  }

  method CallStore(store: ProductStore, c: Command, fault: Fault) returns (reply: StoreReply)
    requires store.Valid() && !c.kind.NotifyOnly?
    modifies store
    ensures store.Valid()
    ensures store.Tables() ==
      if fault.LostRequest? then old(store.Tables()) else Execute(old(store.Tables()), AsWrite(c)).0
    ensures reply == if !fault.NoFault? then SourceError else
      match Execute(old(store.Tables()), AsWrite(c)).1
      case Applied(v) => Version(v)
      case Refused => PreconditionFailed
      case _ => SourceError
  {
    if fault.LostRequest? {
      return SourceError;
    }
    var r: WriteResult;
    if c.kind.PutKind? {
      r := store.PutIfVersion(c.key, c.value, c.expected);
    } else {
      r := store.DeleteIfVersion(c.key, c.expected);
    }
    if fault.LostResponse? {
      return SourceError;
    }
    match r
    case Applied(v) => reply := Version(v);
    case Refused => reply := PreconditionFailed;
    case _ => reply := SourceError;
  }

  /** `sent` is the version handed to the broadcast, if there is one. */
  method ExecuteMutation(store: ProductStore, c: Command, fault: Fault, broadcast: Broadcast)
    returns (o: Outcome, sent: Option<int>)
    requires store.Valid()
    modifies store
    ensures store.Valid()
    // Reported as committed exactly when the statement applied and said so: the row's own version is broadcast.
    ensures o.committed == Some(true) <==>
      (!c.kind.NotifyOnly? && fault.NoFault? && Execute(old(store.Tables()), AsWrite(c)).1.Applied?)
    ensures o.committed == Some(true) ==>
      && store.Tables() == Execute(old(store.Tables()), AsWrite(c)).0
      && o.version == sent == Some(Generation(store.Tables(), c.key)) && !o.writeFailed
    // Reported as not committed exactly when the store refused: nothing changed, nobody is notified.
    ensures o.committed == Some(false) <==>
      (!c.kind.NotifyOnly? && fault.NoFault? && Execute(old(store.Tables()), AsWrite(c)).1.Refused?)
    ensures sent.None? <==> o.committed == Some(false)
    ensures o.committed == Some(false) ==> store.Tables() == old(store.Tables())
    // Everything else is unknown, and the command's own version is broadcast.
    ensures o.committed.None? ==> sent == Some(c.version) && o.version.None?
    ensures o.committed.None? ==> (o.writeFailed <==> !c.kind.NotifyOnly?)
    ensures o.broadcastFailed <==> sent.Some? && broadcast.BroadcastError?
    ensures o.report == if sent.Some? && broadcast.Report? then Some(broadcast.complete) else None
    ensures o.note.RefreshFirst? <==> o.committed == Some(false)
    ensures o.note.CommitUnknown? <==> o.committed.None? && !c.kind.NotifyOnly? && broadcast.Report?
    ensures c.kind.NotifyOnly? ==> store.Tables() == old(store.Tables())
  {
    o := Outcome(None, None, None, NoNote, false, false);
    var version: int := c.version;
    if !c.kind.NotifyOnly? {
      ghost var db := store.Tables();
      WriteKeeps(db, AsWrite(c));
      var reply := CallStore(store, c, fault);
      o := o.(writeFailed := !reply.Version? || reply.v <= 0);
      if reply.Version? && reply.v > 0 {
        o := o.(committed := Some(true), version := Some(reply.v));
      }
      if reply.PreconditionFailed? {
        o := o.(committed := Some(false), note := RefreshFirst);
        return o, None;
      }
    }
    if o.version.Some? {
      version := o.version.value;
    }
    sent := Some(version);
    if broadcast.BroadcastError? {
      o := o.(broadcastFailed := true);
      return;
    }
    o := o.(report := Some(broadcast.complete));
    if o.writeFailed {
      o := o.(note := CommitUnknown);
    }
  }

  // ---- The request ----

  /** The parts of a request that decide its fate; `gone` means that its caller has disconnected. */
  datatype Request = Request(
    query: Text, versions: seq<Text>, matches: seq<Text>, absent: seq<Text>, isPut: bool,
    body: Bytes, validJson: bool, slotFree: bool, gone: bool)

  datatype Decision = Refuse(status: nat) | Silent | Run(c: Command)

  /** The checks before executeMutation, in their order. */
  function Decide(q: Request, notifyOnly: bool): Decision {
    var key := KeyCodec.RequestKey(q.query);
    var version := Protocol.ParseHeader(q.versions);
    if key.None? || version.None? || (!notifyOnly && version.value != 0) then Refuse(400)
    else if !q.slotFree then Refuse(503)
    else if q.isPut && |q.body| > MAX_VALUE_BYTES then Refuse(413)
    else if q.isPut && !q.validJson then Refuse(400)
    else if q.gone then Silent
    else
      var value := if q.isPut then q.body else [];
      if notifyOnly then Run(Command(NotifyOnly, key.value, value, 0, version.value))
      else
        match Protocol.MutationPrecondition(q.matches, q.absent, q.isPut)
        case Required => Refuse(428)
        case Malformed => Refuse(400)
        case Expect(v) => Run(Command(if q.isPut then PutKind else DeleteKind, key.value, value, v, 0))
  }

  /** Which requests get through to the store, and as what. */
  lemma DecideExact(q: Request, c: Command)
    ensures Decide(q, false) == Run(c) <==>
      && KeyCodec.RequestKey(q.query) == Some(c.key) && q.versions == [] && q.slotFree && !q.gone
      && (q.isPut ==> |q.body| <= MAX_VALUE_BYTES && q.validJson)
      && c.kind == (if q.isPut then PutKind else DeleteKind) && c.value == (if q.isPut then q.body else [])
      && c.expected >= 0 && c.version == 0
      && Protocol.MutationPrecondition(q.matches, q.absent, q.isPut) == Protocol.Expect(c.expected)
    ensures Decide(q, true) == Run(c) <==>
      && KeyCodec.RequestKey(q.query) == Some(c.key) && q.slotFree && !q.gone
      && (q.isPut ==> |q.body| <= MAX_VALUE_BYTES && q.validJson)
      && c.kind == NotifyOnly && c.value == (if q.isPut then q.body else []) && c.expected == 0
      && c.version <= Protocol.MAX_INT64 && q.versions == Protocol.SendHeader(c.version)
  {
    hide KeyCodec.RequestKey, Protocol.ParseHeader, Protocol.MutationPrecondition;
    Protocol.HeaderExact(q.versions, 0);
    Protocol.HeaderExact(q.versions, c.version);
    var v := Protocol.ParseHeader(q.versions);
    if v.Some? { Protocol.HeaderExact(q.versions, v.value); }
  }

  datatype Reply =
    | Rejected(status: nat)
    | NoReply
    | Conflict                                        // 412
    | Failure                                         // source or broadcast error
    | Done(complete: bool, etag: Option<Text>)        // 200, or 202 when not complete

  /** The row the request's precondition describes. */
  predicate Meets(q: Request, db: Db, key: Key) {
    if q.matches == [] then q.isPut && !Live(db, key)
    else Live(db, key) && |q.matches| == 1 && Protocol.TrimSpace(q.matches[0]) == Protocol.ETag(Generation(db, key))
  }

  /** An admitted write is applied to the key of the query exactly if its precondition describes the row. */
  lemma WriteMeets(q: Request, db: Db)
    requires DbOk(db)
    ensures Decide(q, false).Run? ==> var c := Decide(q, false).c;
      && KeyCodec.RequestKey(q.query) == Some(c.key) && c.version == 0 && (c.kind.PutKind? <==> q.isPut)
      && !c.kind.NotifyOnly?
      && (Execute(db, AsWrite(c)).1.Applied? ==> Meets(q, db, c.key))
      && (Execute(db, AsWrite(c)).1.Applied? || Execute(db, AsWrite(c)).1.Refused?)
      && (Meets(q, db, c.key) && Generation(db, c.key) <= Protocol.MAX_INT64 ==> Execute(db, AsWrite(c)).1.Applied?)
  {
    hide KeyCodec.RequestKey, Protocol.ParseHeader, Protocol.MutationPrecondition, Protocol.TrimSpace, KeyOk;
    hide EventsOk, QueueOk, Change;
    if Decide(q, false).Run? {
      var c := Decide(q, false).c;
      RequestKeyValid(q.query);
      Protocol.PreconditionExact(q.matches, q.absent, q.isPut, c.expected);
      if Live(db, c.key) {
        assert Chronicle(db.log[c.key], db.rows[c.key]);
        SameTag(c.expected, Generation(db, c.key));
      }
    }
  }

  lemma RequestKeyValid(query: Text)
    ensures KeyCodec.RequestKey(query).Some? ==> KeyOk(KeyCodec.RequestKey(query).value)
  {
  }

  lemma SameTag(v: nat, w: nat)
    ensures Protocol.ETag(v) == Protocol.ETag(w) ==> v == w
  {
    if Protocol.ETag(v) == Protocol.ETag(w) {
      Protocol.TagInjective(v, w);
    }
  }

  /**
   * A conditional write over HTTP, end to end. Whoever gets a success has replaced exactly the row its
   * precondition described, gets the new row's tag, and that version was broadcast. A conflict changes
   * nothing and tells nobody. An unknown outcome is always followed by a forced invalidation.
   */
  method ServeWrite(store: ProductStore, q: Request, fault: Fault, broadcast: Broadcast)
    returns (reply: Reply, committed: Option<bool>, sent: Option<int>)
    requires store.Valid()
    modifies store
    ensures store.Valid() && (reply.Rejected? || reply.NoReply? <==> !Decide(q, false).Run?)
    ensures reply.Rejected? || reply.NoReply? || reply.Conflict? ==> store.Tables() == old(store.Tables()) && sent.None?
    ensures Decide(q, false).Run? ==> var key := Decide(q, false).c.key;
      && KeyCodec.RequestKey(q.query) == Some(key)
      && (committed == Some(true) ==>
            && Meets(q, old(store.Tables()), key) && Live(store.Tables(), key) == q.isPut
            && key in store.rows && (q.isPut ==> store.rows[key].value == q.body)
            && Generation(store.Tables(), key) == Generation(old(store.Tables()), key) + 1
            && sent == Some(Generation(store.Tables(), key)))
      && (committed == Some(false) <==> reply.Conflict?)
      && (committed.None? ==> sent == Some(0) && reply.Failure?)
      && (reply.Done? ==>
            && committed == Some(true) && broadcast == Report(reply.complete)
            && reply.etag == if q.isPut then Some(Protocol.ETag(Generation(store.Tables(), key))) else None)
  {
    hide DbOk, Decide, Meets;
    var d := Decide(q, false);
    committed, sent := None, None;
    if d.Refuse? {
      return Rejected(d.status), None, None;
    }
    if d.Silent? {
      return NoReply, None, None;
    }
    WriteMeets(q, store.Tables());
    WriteKeeps(store.Tables(), AsWrite(d.c));
    DecideExact(q, d.c);
    if Execute(store.Tables(), AsWrite(d.c)).1.Applied? { WriteStores(store.Tables(), AsWrite(d.c)); }
    var o;
    o, sent := ExecuteMutation(store, d.c, fault, broadcast);
    committed := o.committed;
    if o.committed == Some(false) {
      reply := Conflict;
    } else if o.committed == Some(true) && !o.broadcastFailed {
      reply := Done(o.report.value, if q.isPut then Some(Protocol.ETag(o.version.value)) else None);
    } else {
      reply := Failure;
    }
  }
}
