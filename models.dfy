/** The two tables of the archive, `messages` and `channels`, as records, and
    their `to_dict` projections into JSON objects. A nullable column is an
    `Option`; a NOT NULL column is a plain value. */
module Models {
  import opened Wrappers

  /** A point in time. Only its total order matters to the archive, so it is
      modelled as an integer (for example microseconds since an epoch). */
  type Instant = int

  /** One row of `messages`. `id` is the table's integer primary key;
      `discordMessageId` is the external ID, unique and NOT NULL. */
  datatype Message = Message(
    id: nat,
    discordMessageId: string,
    userId: string,
    username: string,
    avatarUrl: Option<string>,
    content: Option<string>,
    timestamp: Instant,
    channelId: string,
    channelName: string,
    serverId: string,
    serverName: string,
    messageType: Option<string>,
    mediaUrl: Option<string>,
    mediaFilename: Option<string>,
    isBot: Option<bool>,
    createdAt: Option<Instant>)

  /** One row of `channels`. `discordChannelId` is the external ID, unique and
      NOT NULL. */
  datatype Channel = Channel(
    id: nat,
    discordChannelId: string,
    name: string,
    serverId: string,
    serverName: string,
    createdAt: Option<Instant>)

  /** The JSON values a `to_dict` projection can hold. */
  datatype Json = JNull | JInt(i: int) | JBool(b: bool) | JStr(s: string)

  /** The keys of a serialised message. */
  const MESSAGE_KEYS: set<string> := {
    "id", "discord_message_id", "user_id", "username", "avatar_url", "content",
    "timestamp", "channel_id", "channel_name", "server_id", "server_name",
    "message_type", "media_url", "media_filename", "is_bot", "created_at" }

  /** The keys of a serialised channel. */
  const CHANNEL_KEYS: set<string> := {
    "id", "discord_channel_id", "name", "server_id", "server_name", "created_at" }

  function OptStr(o: Option<string>): Json
  {
    match o
    case None => JNull
    case Some(s) => JStr(s)
  }

  function OptBool(o: Option<bool>): Json
  {
    match o
    case None => JNull
    case Some(b) => JBool(b)
  }

  /** A datetime column rendered with `isoformat()` when set and as null when
      not; `iso` is that rendering. */
  function OptTime(o: Option<Instant>, iso: Instant -> string): Json
  {
    match o
    case None => JNull
    case Some(t) => JStr(iso(t))
  }

  /** `Message.to_dict`: every column under its own name, datetimes rendered
      by `iso`. */
  function MessageToDict(m: Message, iso: Instant -> string): map<string, Json>
  {
    map[
      "id" := JInt(m.id),
      "discord_message_id" := JStr(m.discordMessageId),
      "user_id" := JStr(m.userId),
      "username" := JStr(m.username),
      "avatar_url" := OptStr(m.avatarUrl),
      "content" := OptStr(m.content),
      "timestamp" := JStr(iso(m.timestamp)),
      "channel_id" := JStr(m.channelId),
      "channel_name" := JStr(m.channelName),
      "server_id" := JStr(m.serverId),
      "server_name" := JStr(m.serverName),
      "message_type" := OptStr(m.messageType),
      "media_url" := OptStr(m.mediaUrl),
      "media_filename" := OptStr(m.mediaFilename),
      "is_bot" := OptBool(m.isBot),
      "created_at" := OptTime(m.createdAt, iso)]
  }

  /** `Channel.to_dict`: every column under its own name. */
  function ChannelToDict(c: Channel, iso: Instant -> string): map<string, Json>
  {
    map[
      "id" := JInt(c.id),
      "discord_channel_id" := JStr(c.discordChannelId),
      "name" := JStr(c.name),
      "server_id" := JStr(c.serverId),
      "server_name" := JStr(c.serverName),
      "created_at" := OptTime(c.createdAt, iso)]
  }

  /** A serialised message has exactly the 16 column keys. */
  lemma MessageDictKeys(m: Message, iso: Instant -> string)
    ensures MessageToDict(m, iso).Keys == MESSAGE_KEYS
  {
  }

  /** A serialised channel has exactly the 6 column keys. */
  lemma ChannelDictKeys(c: Channel, iso: Instant -> string)
    ensures ChannelToDict(c, iso).Keys == CHANNEL_KEYS
  {
  }
}
