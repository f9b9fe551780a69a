/** The write side of the archive: `POST /channels` and `POST /messages`.
    Each looks its row up by external ID first and returns an existing row
    untouched (status 200); otherwise it appends one new row (status 201).
    The tables are sequences in insertion order; the database handle, the
    session and the commit are reduced to that effect. */
module Ingest {
  import opened Wrappers
  import opened Text
  import opened Models
  import Queries

  /** A key of the JSON request body: absent, JSON null, or a value. */
  datatype Field<T> = Missing | Null | Present(value: T)

  /** `data.get(key, default)`: the default when the key is absent, `None`
      for JSON null, the value otherwise. */
  function GetWithDefault<T>(f: Field<T>, default: Option<T>): Option<T>
  {
    match f
    case Missing => default
    case Null => None
    case Present(v) => Some(v)
  }

  /** Why an ingestion request fails. Neither is caught by the route, so the
      client sees a server error (500) and nothing is stored. */
  datatype IngestError =
    | MissingKey(key: string)  // `data[key]` on an absent key raises KeyError
    | NotNullViolation         // a JSON null reaches a NOT NULL column at commit

  /** The reply of an ingestion request. */
  datatype Reply<T> = Existing(row: T) | Created(row: T) | Failed(error: IngestError)
  {
    /** The HTTP status the route answers with. */
    function Status(): int
    {
      match this
      case Existing(_) => 200
      case Created(_) => 201
      case Failed(_) => 500
    }
  }

  /** A table after a request, with the request's reply. */
  datatype Step<T> = Step(rows: seq<T>, reply: Reply<T>)

  /** The first key of `fields` that is absent (KeyError, raised while the
      row is built); failing that, a NOT NULL violation when any field is
      JSON null; `None` when every field has a value. */
  function CheckRequired(fields: seq<(string, Field<string>)>): (r: Option<IngestError>)
    ensures r.None? <==> forall i :: 0 <= i < |fields| ==> fields[i].1.Present?
    ensures r.Some? && r.value.MissingKey? ==>
      exists i :: 0 <= i < |fields| && fields[i].1.Missing? && fields[i].0 == r.value.key
    ensures (exists i :: 0 <= i < |fields| && fields[i].1.Missing?) ==> r.Some? && r.value.MissingKey?
  {
    match FirstMissing(fields)
    case Some(key) => Some(MissingKey(key))
    case None =>
      if exists i :: 0 <= i < |fields| && fields[i].1.Null? then Some(NotNullViolation) else None
  }

  /** The key of the first absent field, in order. */
  function FirstMissing(fields: seq<(string, Field<string>)>): (r: Option<string>)
    ensures r.None? <==> forall i :: 0 <= i < |fields| ==> !fields[i].1.Missing?
    ensures r.Some? ==> exists i :: 0 <= i < |fields| && fields[i].1.Missing? && fields[i].0 == r.value
  {
    if fields == [] then None
    else if fields[0].1.Missing? then Some(fields[0].0)
    else
      var r := FirstMissing(fields[1..]);
      assert forall i :: 1 <= i < |fields| ==> fields[i] == fields[1..][i - 1];
      r
  }

  /** Index of the first row whose external ID is `id`, as `.first()` on a
      `filter_by` query. */
  function FindFirst<T>(rows: seq<T>, key: T -> string, id: string): (r: Option<nat>)
    ensures r.Some? ==> r.value < |rows| && key(rows[r.value]) == id
    ensures r.Some? ==> forall j :: 0 <= j < r.value ==> key(rows[j]) != id
    ensures r.None? <==> forall j :: 0 <= j < |rows| ==> key(rows[j]) != id
  {
    if rows == [] then None
    else if key(rows[0]) == id then Some(0)
    else
      match FindFirst(rows[1..], key, id)
      case None => None
      case Some(i) => Some(i + 1)
  }

  // Channels

  /** The JSON body of `POST /channels`. */
  datatype ChannelRequest = ChannelRequest(
    discordChannelId: Field<string>,
    name: Field<string>,
    serverId: Field<string>,
    serverName: Field<string>)

  function ChannelKey(c: Channel): string
  {
    c.discordChannelId
  }

  /** The table invariant of `channels`: external IDs are unique (they are
      non-null by type) and the integer primary keys are 1, 2, 3, ... in
      insertion order. */
  ghost predicate ChannelTable(rows: seq<Channel>)
  {
    && (forall i, j :: 0 <= i < j < |rows| ==> rows[i].discordChannelId != rows[j].discordChannelId)
    && (forall i :: 0 <= i < |rows| ==> rows[i].id == i + 1)
  }

  /** The new row `create_channel` builds, or why building it fails. */
  function InsertChannel(rows: seq<Channel>, req: ChannelRequest, now: Instant): (s: Step<Channel>)
    requires !req.discordChannelId.Missing?
    ensures !s.reply.Existing?
    ensures s.reply.Created? ==> s.reply.row.id == |rows| + 1 && s.reply.row.createdAt == Some(now)
    ensures s.reply.Created? <==> req.discordChannelId.Present? && req.name.Present?
                                  && req.serverId.Present? && req.serverName.Present?
  {
    var required := [
      ("discord_channel_id", req.discordChannelId), ("name", req.name),
      ("server_id", req.serverId), ("server_name", req.serverName)];
    match CheckRequired(required)
    case Some(e) => Step(rows, Failed(e))
    case None =>
      assert required[1].1.Present? && required[2].1.Present? && required[3].1.Present?;
      var row := Channel(|rows| + 1, req.discordChannelId.value, req.name.value,
                         req.serverId.value, req.serverName.value, Some(now));
      Step(rows + [row], Created(row))
  }

  /** `create_channel`: the stored channel with the request's external ID if
      there is one, otherwise a new row. `now` is the clock reading used for
      `created_at`. */
  function IngestChannel(rows: seq<Channel>, req: ChannelRequest, now: Instant): (s: Step<Channel>)
    ensures !s.reply.Created? ==> s.rows == rows
    ensures s.reply.Created? ==> s.rows == rows + [s.reply.row]
  {
    match req.discordChannelId
    case Missing => Step(rows, Failed(MissingKey("discord_channel_id")))
    case Null => InsertChannel(rows, req, now)
    case Present(id) =>
      match FindFirst(rows, ChannelKey, id)
      case Some(i) => Step(rows, Existing(rows[i]))
      case None => InsertChannel(rows, req, now)
  }

  /** A request whose external ID is already stored gets that row back with
      status 200, and the table does not change, whatever the other fields
      say (a channel's name is fixed at first sight). */
  lemma ChannelReplayReturnsStored(rows: seq<Channel>, req: ChannelRequest, now: Instant, k: nat)
    requires ChannelTable(rows)
    requires k < |rows| && req.discordChannelId == Present(rows[k].discordChannelId)
    ensures IngestChannel(rows, req, now) == Step(rows, Existing(rows[k]))
    ensures IngestChannel(rows, req, now).reply.Status() == 200
  {
    var i := FindFirst(rows, ChannelKey, rows[k].discordChannelId);
    assert i.Some?;
    assert i.value == k;
  }

  /** A request with a new external ID and all four fields adds exactly one
      row, carrying those fields, and answers 201. */
  lemma ChannelCreatedFromRequest(rows: seq<Channel>, id: string, name: string,
                                  serverId: string, serverName: string, now: Instant)
    requires forall c :: c in rows ==> c.discordChannelId != id
    ensures var s := IngestChannel(rows,
        ChannelRequest(Present(id), Present(name), Present(serverId), Present(serverName)), now);
      var row := Channel(|rows| + 1, id, name, serverId, serverName, Some(now));
      s == Step(rows + [row], Created(row)) && s.reply.Status() == 201
  {
    assert forall j :: 0 <= j < |rows| ==> ChannelKey(rows[j]) != id by {
      forall j | 0 <= j < |rows| ensures ChannelKey(rows[j]) != id {
        assert rows[j] in rows;
      }
    }
  }

  /** `create_channel` keeps the table invariant. */
  lemma IngestChannelKeepsTable(rows: seq<Channel>, req: ChannelRequest, now: Instant)
    requires ChannelTable(rows)
    ensures ChannelTable(IngestChannel(rows, req, now).rows)
  {
    var s := IngestChannel(rows, req, now);
    if s.reply.Created? {
      var id := s.reply.row.discordChannelId;
      assert req.discordChannelId == Present(id);
      assert FindFirst(rows, ChannelKey, id).None?;
      assert forall j :: 0 <= j < |rows| ==> rows[j].discordChannelId != id by {
        forall j | 0 <= j < |rows| ensures rows[j].discordChannelId != id {
          assert ChannelKey(rows[j]) != id;
        }
      }
    }
  }

  /** Sending the same channel twice: the second request, whatever its other
      fields, returns the row the first one stored or found, with status 200,
      and the table stays as the first request left it. */
  lemma ChannelIngestIdempotent(rows: seq<Channel>, first: ChannelRequest, second: ChannelRequest,
                                now1: Instant, now2: Instant)
    requires ChannelTable(rows)
    requires second.discordChannelId == first.discordChannelId
    requires !IngestChannel(rows, first, now1).reply.Failed?
    ensures var s1 := IngestChannel(rows, first, now1);
      IngestChannel(s1.rows, second, now2) == Step(s1.rows, Existing(s1.reply.row))
  {
    var s1 := IngestChannel(rows, first, now1);
    IngestChannelKeepsTable(rows, first, now1);
    var k: nat;
    if s1.reply.Created? {
      k := |rows|;
    } else {
      k := FindFirst(rows, ChannelKey, first.discordChannelId.value).value;
    }
    assert s1.rows[k] == s1.reply.row;
    ChannelReplayReturnsStored(s1.rows, second, now2, k);
  }

  // Messages

  /** The `timestamp` key of `POST /messages`: absent or falsy (missing,
      null, 0, false, an empty array or object), a string, or a truthy
      non-string value, which the route passes on unchanged and which the
      model takes to be an instant already. */
  datatype TimestampInput = Absent | Text(s: string) | Given(t: Instant)

  /** Every `Z` replaced by an explicit `+00:00` offset, so that the ISO-8601
      parser accepts a UTC marker. */
  function NormalizeUtcMarker(s: string): (r: string)
    ensures 'Z' !in r
    ensures 'Z' !in s ==> r == s
  {
    ReplaceAllRemoves(s, 'Z', "+00:00");
    ReplaceAllIdentity(s, 'Z', "+00:00");
    ReplaceAll(s, 'Z', "+00:00")
  }

  /** The timestamp stored for a new message. A string is parsed after its
      `Z` markers are normalised and falls back to `now` when the parser
      (`datetime.fromisoformat`, the partial function `parseIso`) rejects
      it; an absent or falsy value also becomes `now`; any other value is
      kept as given. */
  function ResolveTimestamp(ts: TimestampInput, parseIso: string -> Option<Instant>, now: Instant): (t: Instant)
    ensures ts.Absent? ==> t == now
    ensures ts.Given? ==> t == ts.t
    ensures ts.Text? ==> t == parseIso(NormalizeUtcMarker(ts.s)).GetOr(now)
  {
    match ts
    case Absent => now
    case Text(s) => parseIso(NormalizeUtcMarker(s)).GetOr(now)
    case Given(t) => t
  }

  /** A trailing `Z` reads as the `+00:00` offset, whatever precedes it. */
  lemma TrailingZIsUtc(s: string, parseIso: string -> Option<Instant>, now: Instant)
    ensures ResolveTimestamp(Text(s + "Z"), parseIso, now) == ResolveTimestamp(Text(s + "+00:00"), parseIso, now)
  {
    var utc := "+00:00";
    assert 'Z' !in utc;
    ReplaceAllIdentity(utc, 'Z', utc);
    assert ReplaceAll("Z", 'Z', utc) == utc + ReplaceAll([], 'Z', utc);
    ReplaceAllAppend(s, "Z", 'Z', utc);
    ReplaceAllAppend(s, utc, 'Z', utc);
    assert NormalizeUtcMarker(s + "Z") == ReplaceAll(s, 'Z', utc) + utc == NormalizeUtcMarker(s + utc);
  }

  /** A timestamp string without a `Z` reaches the parser exactly as sent;
      when the parser rejects it the message is stamped with `now`. */
  lemma UnmarkedTimestampParsedAsSent(s: string, parseIso: string -> Option<Instant>, now: Instant)
    requires 'Z' !in s
    ensures parseIso(s).Some? ==> ResolveTimestamp(Text(s), parseIso, now) == parseIso(s).value
    ensures parseIso(s).None? ==> ResolveTimestamp(Text(s), parseIso, now) == now
  {
  }

  /** The JSON body of `POST /messages`. */
  datatype MessageRequest = MessageRequest(
    discordMessageId: Field<string>,
    userId: Field<string>,
    username: Field<string>,
    avatarUrl: Field<string>,
    content: Field<string>,
    timestamp: TimestampInput,
    channelId: Field<string>,
    channelName: Field<string>,
    serverId: Field<string>,
    serverName: Field<string>,
    messageType: Field<string>,
    mediaUrl: Field<string>,
    mediaFilename: Field<string>,
    isBot: Field<bool>)

  function MessageKey(m: Message): string
  {
    m.discordMessageId
  }

  /** The table invariant of `messages`: unique external IDs and primary keys
      1, 2, 3, ... in insertion order. */
  ghost predicate MessageTable(rows: seq<Message>)
  {
    && (forall i, j :: 0 <= i < j < |rows| ==> rows[i].discordMessageId != rows[j].discordMessageId)
    && (forall i :: 0 <= i < |rows| ==> rows[i].id == i + 1)
  }

  /** The value a nullable column with a Python-side default receives: the
      ORM leaves a `None` attribute out of the INSERT, so the default
      applies to it as well as to an absent key. */
  function ColumnDefault<T>(given: Option<T>, default: T): Option<T>
  {
    if given.Some? then given else Some(default)
  }

  /** The keys `create_message` reads with `data[key]`, in the order the
      row's constructor reads them. */
  function RequiredMessageKeys(req: MessageRequest): seq<(string, Field<string>)>
  {
    [("discord_message_id", req.discordMessageId), ("user_id", req.userId),
     ("username", req.username), ("channel_id", req.channelId),
     ("channel_name", req.channelName), ("server_id", req.serverId),
     ("server_name", req.serverName)]
  }

  /** Every required key of a message request carries a value. */
  predicate CompleteMessage(req: MessageRequest)
  {
    && req.discordMessageId.Present? && req.userId.Present? && req.username.Present?
    && req.channelId.Present? && req.channelName.Present?
    && req.serverId.Present? && req.serverName.Present?
  }

  /** The list of required keys holds exactly the request's seven required
      fields. */
  lemma RequiredMessageKeysFields(req: MessageRequest)
    ensures CompleteMessage(req) <==>
      forall i :: 0 <= i < |RequiredMessageKeys(req)| ==> RequiredMessageKeys(req)[i].1.Present?
    ensures (exists i :: 0 <= i < |RequiredMessageKeys(req)| && RequiredMessageKeys(req)[i].1.Missing?) <==>
      || req.discordMessageId.Missing? || req.userId.Missing? || req.username.Missing?
      || req.channelId.Missing? || req.channelName.Missing?
      || req.serverId.Missing? || req.serverName.Missing?
  {
    var r := RequiredMessageKeys(req);
    assert r[0].1 == req.discordMessageId && r[1].1 == req.userId && r[2].1 == req.username;
    assert r[3].1 == req.channelId && r[4].1 == req.channelName;
    assert r[5].1 == req.serverId && r[6].1 == req.serverName;
  }

  /** The new row `create_message` builds, or why building it fails. */
  function InsertMessage(rows: seq<Message>, req: MessageRequest,
                         parseIso: string -> Option<Instant>, now: Instant): (s: Step<Message>)
    requires !req.discordMessageId.Missing?
    ensures !s.reply.Existing?
    ensures s.reply.Created? ==> s.reply.row.id == |rows| + 1 && s.reply.row.createdAt == Some(now)
    ensures s.reply.Created? <==> CompleteMessage(req)
  {
    var required := RequiredMessageKeys(req);
    RequiredMessageKeysFields(req);
    match CheckRequired(required)
    case Some(e) => Step(rows, Failed(e))
    case None =>
      assert forall i :: 0 <= i < |required| ==> required[i].1.Present?;
      assert required[1].1.Present? && required[2].1.Present? && required[3].1.Present?;
      assert required[4].1.Present? && required[5].1.Present? && required[6].1.Present?;
      var row := Message(
        |rows| + 1,
        req.discordMessageId.value,
        req.userId.value,
        req.username.value,
        GetWithDefault(req.avatarUrl, None),
        GetWithDefault(req.content, Some("")),
        ResolveTimestamp(req.timestamp, parseIso, now),
        req.channelId.value,
        req.channelName.value,
        req.serverId.value,
        req.serverName.value,
        ColumnDefault(GetWithDefault(req.messageType, Some("text")), "text"),
        GetWithDefault(req.mediaUrl, None),
        GetWithDefault(req.mediaFilename, None),
        ColumnDefault(GetWithDefault(req.isBot, Some(false)), false),
        Some(now));
      Step(rows + [row], Created(row))
  }

  /** `create_message`: the stored message with the request's external ID if
      there is one, otherwise a new row. */
  function IngestMessage(rows: seq<Message>, req: MessageRequest,
                         parseIso: string -> Option<Instant>, now: Instant): (s: Step<Message>)
    ensures !s.reply.Created? ==> s.rows == rows
    ensures s.reply.Created? ==> s.rows == rows + [s.reply.row]
  {
    match req.discordMessageId
    case Missing => Step(rows, Failed(MissingKey("discord_message_id")))
    case Null => InsertMessage(rows, req, parseIso, now)
    case Present(id) =>
      match FindFirst(rows, MessageKey, id)
      case Some(i) => Step(rows, Existing(rows[i]))
      case None => InsertMessage(rows, req, parseIso, now)
  }

  /** A request whose external ID is already stored gets that row back with
      status 200 and the table does not change; the other fields, missing or
      not, are not looked at. */
  lemma MessageReplayReturnsStored(rows: seq<Message>, req: MessageRequest,
                                   parseIso: string -> Option<Instant>, now: Instant, k: nat)
    requires MessageTable(rows)
    requires k < |rows| && req.discordMessageId == Present(rows[k].discordMessageId)
    ensures IngestMessage(rows, req, parseIso, now) == Step(rows, Existing(rows[k]))
    ensures IngestMessage(rows, req, parseIso, now).reply.Status() == 200
  {
    var i := FindFirst(rows, MessageKey, rows[k].discordMessageId);
    assert i.Some?;
    assert i.value == k;
  }

  /** `create_message` keeps the table invariant: at most one row per
      external ID. */
  lemma IngestMessageKeepsTable(rows: seq<Message>, req: MessageRequest,
                                parseIso: string -> Option<Instant>, now: Instant)
    requires MessageTable(rows)
    ensures MessageTable(IngestMessage(rows, req, parseIso, now).rows)
  {
    var s := IngestMessage(rows, req, parseIso, now);
    if s.reply.Created? {
      var id := s.reply.row.discordMessageId;
      assert req.discordMessageId == Present(id);
      assert FindFirst(rows, MessageKey, id).None?;
      assert forall j :: 0 <= j < |rows| ==> rows[j].discordMessageId != id by {
        forall j | 0 <= j < |rows| ensures rows[j].discordMessageId != id {
          assert MessageKey(rows[j]) != id;
        }
      }
    }
  }

  /** Sending the same message twice: the second request returns the row the
      first one stored or found, with status 200, and adds nothing. */
  lemma MessageIngestIdempotent(rows: seq<Message>, first: MessageRequest, second: MessageRequest,
                                parseIso: string -> Option<Instant>, now1: Instant, now2: Instant)
    requires MessageTable(rows)
    requires second.discordMessageId == first.discordMessageId
    requires !IngestMessage(rows, first, parseIso, now1).reply.Failed?
    ensures var s1 := IngestMessage(rows, first, parseIso, now1);
      IngestMessage(s1.rows, second, parseIso, now2) == Step(s1.rows, Existing(s1.reply.row))
  {
    var s1 := IngestMessage(rows, first, parseIso, now1);
    IngestMessageKeepsTable(rows, first, parseIso, now1);
    var k: nat;
    if s1.reply.Created? {
      k := |rows|;
    } else {
      k := FindFirst(rows, MessageKey, first.discordMessageId.value).value;
    }
    assert s1.rows[k] == s1.reply.row;
    MessageReplayReturnsStored(s1.rows, second, parseIso, now2, k);
  }

  /** A complete request with a new external ID is stored as one new row
      whose optional columns follow the defaults: content `''` when absent,
      `message_type` `'text'` and `is_bot` false when absent or null, no
      avatar or media when absent, and any `message_type` string kept as
      sent. */
  lemma MessageDefaults(rows: seq<Message>, req: MessageRequest,
                        parseIso: string -> Option<Instant>, now: Instant)
    requires req.discordMessageId.Present?
    requires forall m :: m in rows ==> m.discordMessageId != req.discordMessageId.value
    requires req.userId.Present? && req.username.Present? && req.channelId.Present?
    requires req.channelName.Present? && req.serverId.Present? && req.serverName.Present?
    ensures var s := IngestMessage(rows, req, parseIso, now);
      && s.reply.Created? && s.reply.Status() == 201
      && s.rows == rows + [s.reply.row]
      && s.reply.row.id == |rows| + 1
      && s.reply.row.discordMessageId == req.discordMessageId.value
      && s.reply.row.channelId == req.channelId.value
      && (req.content.Missing? ==> s.reply.row.content == Some(""))
      && (req.content.Null? ==> s.reply.row.content == None)
      && (!req.messageType.Present? ==> s.reply.row.messageType == Some("text"))
      && (req.messageType.Present? ==> s.reply.row.messageType == Some(req.messageType.value))
      && (!req.isBot.Present? ==> s.reply.row.isBot == Some(false))
      && (!req.avatarUrl.Present? ==> s.reply.row.avatarUrl == None)
      && (!req.mediaUrl.Present? ==> s.reply.row.mediaUrl == None)
      && (!req.mediaFilename.Present? ==> s.reply.row.mediaFilename == None)
      && s.reply.row.timestamp == ResolveTimestamp(req.timestamp, parseIso, now)
      && s.reply.row.createdAt == Some(now)
  {
    var id := req.discordMessageId.value;
    assert forall j :: 0 <= j < |rows| ==> MessageKey(rows[j]) != id by {
      forall j | 0 <= j < |rows| ensures MessageKey(rows[j]) != id {
        assert rows[j] in rows;
      }
    }
  }

  /** A new complete request is stored as one new row that carries the
      request's values: every required key lands in its column, and every
      optional key sent with a value is stored as that value. */
  lemma MessageCreatedFromRequest(rows: seq<Message>, req: MessageRequest,
                                  parseIso: string -> Option<Instant>, now: Instant)
    requires CompleteMessage(req)
    requires forall m :: m in rows ==> m.discordMessageId != req.discordMessageId.value
    ensures var s := IngestMessage(rows, req, parseIso, now);
      && s.reply.Created? && s.reply.Status() == 201
      && s.rows == rows + [s.reply.row]
      && s.reply.row.discordMessageId == req.discordMessageId.value
      && s.reply.row.userId == req.userId.value
      && s.reply.row.username == req.username.value
      && s.reply.row.channelId == req.channelId.value
      && s.reply.row.channelName == req.channelName.value
      && s.reply.row.serverId == req.serverId.value
      && s.reply.row.serverName == req.serverName.value
      && (req.avatarUrl.Present? ==> s.reply.row.avatarUrl == Some(req.avatarUrl.value))
      && (req.content.Present? ==> s.reply.row.content == Some(req.content.value))
      && (req.messageType.Present? ==> s.reply.row.messageType == Some(req.messageType.value))
      && (req.mediaUrl.Present? ==> s.reply.row.mediaUrl == Some(req.mediaUrl.value))
      && (req.mediaFilename.Present? ==> s.reply.row.mediaFilename == Some(req.mediaFilename.value))
      && (req.isBot.Present? ==> s.reply.row.isBot == Some(req.isBot.value))
  {
    var id := req.discordMessageId.value;
    assert forall j :: 0 <= j < |rows| ==> MessageKey(rows[j]) != id by {
      forall j | 0 <= j < |rows| ensures MessageKey(rows[j]) != id {
        assert rows[j] in rows;
      }
    }
  }

  /** A request that lacks a required key other than the external ID fails
      with a KeyError naming an absent key, unless the external ID is already
      stored; nothing is added. */
  lemma MessageMissingKeyFails(rows: seq<Message>, req: MessageRequest,
                               parseIso: string -> Option<Instant>, now: Instant)
    requires req.discordMessageId.Present?
    requires forall m :: m in rows ==> m.discordMessageId != req.discordMessageId.value
    requires || req.userId.Missing? || req.username.Missing? || req.channelId.Missing?
             || req.channelName.Missing? || req.serverId.Missing? || req.serverName.Missing?
    ensures var s := IngestMessage(rows, req, parseIso, now);
      && s.reply.Failed? && s.reply.error.MissingKey? && s.rows == rows
      && exists i :: 0 <= i < |RequiredMessageKeys(req)| && RequiredMessageKeys(req)[i].1.Missing?
                     && RequiredMessageKeys(req)[i].0 == s.reply.error.key
  {
    var id := req.discordMessageId.value;
    assert forall j :: 0 <= j < |rows| ==> MessageKey(rows[j]) != id by {
      forall j | 0 <= j < |rows| ensures MessageKey(rows[j]) != id {
        assert rows[j] in rows;
      }
    }
    RequiredMessageKeysFields(req);
  }

  /** A request that has every required key but sends JSON null for one of
      them fails at commit with a NOT NULL violation, unless its external ID
      is already stored; nothing is added. */
  lemma MessageNullFieldFails(rows: seq<Message>, req: MessageRequest,
                              parseIso: string -> Option<Instant>, now: Instant)
    requires forall m :: m in rows ==> req.discordMessageId != Present(m.discordMessageId)
    requires forall i :: 0 <= i < |RequiredMessageKeys(req)| ==> !RequiredMessageKeys(req)[i].1.Missing?
    requires exists i :: 0 <= i < |RequiredMessageKeys(req)| && RequiredMessageKeys(req)[i].1.Null?
    ensures IngestMessage(rows, req, parseIso, now) == Step(rows, Failed(NotNullViolation))
  {
    var required := RequiredMessageKeys(req);
    assert !req.discordMessageId.Missing? by {
      assert !required[0].1.Missing?;
    }
    if req.discordMessageId.Present? {
      var id := req.discordMessageId.value;
      assert forall j :: 0 <= j < |rows| ==> MessageKey(rows[j]) != id by {
        forall j | 0 <= j < |rows| ensures MessageKey(rows[j]) != id {
          assert rows[j] in rows;
        }
      }
    }
    assert FirstMissing(required).None?;
  }

  // The store

  /** The archive's two tables. Nothing ties a message's `channel_id` to a
      channel row: the tables are filled independently. */
  class Archive {
    var channels: seq<Channel>
    var messages: seq<Message>

    ghost predicate Valid()
      reads this
    {
      ChannelTable(channels) && MessageTable(messages)
    }

    constructor ()
      ensures Valid() && channels == [] && messages == []
    {
      channels := [];
      messages := [];
    }

    /** `POST /channels`. */
    method CreateChannel(req: ChannelRequest, now: Instant) returns (reply: Reply<Channel>)
      requires Valid()
      modifies this
      ensures Valid()
      ensures Step(channels, reply) == IngestChannel(old(channels), req, now)
      ensures messages == old(messages)
    {
      var step := IngestChannel(channels, req, now);
      IngestChannelKeepsTable(channels, req, now);
      channels := step.rows;
      reply := step.reply;
    }

    /** `POST /messages`. The channel table is neither read nor changed, so a
        message may name a channel that has no channel row. */
    method CreateMessage(req: MessageRequest, parseIso: string -> Option<Instant>, now: Instant)
      returns (reply: Reply<Message>)
      requires Valid()
      modifies this
      ensures Valid()
      ensures Step(messages, reply) == IngestMessage(old(messages), req, parseIso, now)
      ensures channels == old(channels)
    {
      var step := IngestMessage(messages, req, parseIso, now);
      IngestMessageKeepsTable(messages, req, parseIso, now);
      messages := step.rows;
      reply := step.reply;
    }
  }

  /** Two channels on two different servers, and any messages: the counts
      are the number of messages, 2 channels and 2 servers. */
  lemma TwoChannelsOnTwoServers(a: ChannelRequest, b: ChannelRequest, now: Instant, messages: seq<Message>)
    requires a.discordChannelId.Present? && a.name.Present? && a.serverId.Present? && a.serverName.Present?
    requires b.discordChannelId.Present? && b.name.Present? && b.serverId.Present? && b.serverName.Present?
    requires a.discordChannelId != b.discordChannelId && a.serverId != b.serverId
    ensures var rows := IngestChannel(IngestChannel([], a, now).rows, b, now).rows;
      Queries.GetStats(messages, rows) == Queries.Stats(|messages|, 2, 2)
  {
    var s1 := IngestChannel([], a, now);
    ChannelCreatedFromRequest([], a.discordChannelId.value, a.name.value, a.serverId.value, a.serverName.value, now);
    ChannelCreatedFromRequest(s1.rows, b.discordChannelId.value, b.name.value, b.serverId.value, b.serverName.value, now);
    var rows := IngestChannel(s1.rows, b, now).rows;
    assert |rows| == 2;
    assert Queries.ServerIds(rows) == {a.serverId.value, b.serverId.value} by {
      assert rows[0] in rows && rows[1] in rows;
      forall x | x in Queries.ServerIds(rows) ensures x in {a.serverId.value, b.serverId.value} {
        var c :| c in rows && c.serverId == x;
      }
    }
  }
}
