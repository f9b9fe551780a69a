/** Reading a serialised row back: the inverse of the `to_dict` projections,
    which shows that they lose nothing. */
module Codec {
  import opened Wrappers
  import opened Models

  function AsNat(j: Json): Option<nat>
  {
    if j.JInt? && j.i >= 0 then Some(j.i) else None
  }

  function AsStr(j: Json): Option<string>
  {
    if j.JStr? then Some(j.s) else None
  }

  function AsOptStr(j: Json): Option<Option<string>>
  {
    match j
    case JNull => Some(None)
    case JStr(s) => Some(Some(s))
    case _ => None
  }

  function AsOptBool(j: Json): Option<Option<bool>>
  {
    match j
    case JNull => Some(None)
    case JBool(b) => Some(Some(b))
    case _ => None
  }

  function AsTime(j: Json, parseIso: string -> Option<Instant>): Option<Instant>
  {
    if j.JStr? then parseIso(j.s) else None
  }

  function AsOptTime(j: Json, parseIso: string -> Option<Instant>): Option<Option<Instant>>
  {
    match j
    case JNull => Some(None)
    case JStr(s) => if parseIso(s).Some? then Some(Some(parseIso(s).value)) else None
    case _ => None
  }

  /** Reads a message back from its serialised form; `None` when a key is
      missing or holds a value of the wrong kind. */
  function MessageFromDict(d: map<string, Json>, parseIso: string -> Option<Instant>): Option<Message>
  {
    if d.Keys != MESSAGE_KEYS then None
    else
      var id := AsNat(d["id"]);
      var dmid := AsStr(d["discord_message_id"]);
      var userId := AsStr(d["user_id"]);
      var username := AsStr(d["username"]);
      var avatarUrl := AsOptStr(d["avatar_url"]);
      var content := AsOptStr(d["content"]);
      var timestamp := AsTime(d["timestamp"], parseIso);
      var channelId := AsStr(d["channel_id"]);
      var channelName := AsStr(d["channel_name"]);
      var serverId := AsStr(d["server_id"]);
      var serverName := AsStr(d["server_name"]);
      var messageType := AsOptStr(d["message_type"]);
      var mediaUrl := AsOptStr(d["media_url"]);
      var mediaFilename := AsOptStr(d["media_filename"]);
      var isBot := AsOptBool(d["is_bot"]);
      var createdAt := AsOptTime(d["created_at"], parseIso);
      if id.Some? && dmid.Some? && userId.Some? && username.Some? && avatarUrl.Some?
        && content.Some? && timestamp.Some? && channelId.Some? && channelName.Some?
        && serverId.Some? && serverName.Some? && messageType.Some? && mediaUrl.Some?
        && mediaFilename.Some? && isBot.Some? && createdAt.Some?
      then
        Some(Message(id.value, dmid.value, userId.value, username.value, avatarUrl.value,
          content.value, timestamp.value, channelId.value, channelName.value, serverId.value,
          serverName.value, messageType.value, mediaUrl.value, mediaFilename.value,
          isBot.value, createdAt.value))
      else None
  }

  /** Reads a channel back from its serialised form. */
  function ChannelFromDict(d: map<string, Json>, parseIso: string -> Option<Instant>): Option<Channel>
  {
    if d.Keys != CHANNEL_KEYS then None
    else
      var id := AsNat(d["id"]);
      var dcid := AsStr(d["discord_channel_id"]);
      var name := AsStr(d["name"]);
      var serverId := AsStr(d["server_id"]);
      var serverName := AsStr(d["server_name"]);
      var createdAt := AsOptTime(d["created_at"], parseIso);
      if id.Some? && dcid.Some? && name.Some? && serverId.Some? && serverName.Some? && createdAt.Some?
      then Some(Channel(id.value, dcid.value, name.value, serverId.value, serverName.value, createdAt.value))
      else None
  }

  /** Each key of a message dict holds the value `to_dict` writes for that
      column. */
  ghost predicate HoldsMessage(d: map<string, Json>, m: Message, iso: Instant -> string)
  {
    && d.Keys == MESSAGE_KEYS
    && d["id"] == JInt(m.id)
    && d["discord_message_id"] == JStr(m.discordMessageId)
    && d["user_id"] == JStr(m.userId)
    && d["username"] == JStr(m.username)
    && d["avatar_url"] == OptStr(m.avatarUrl)
    && d["content"] == OptStr(m.content)
    && d["timestamp"] == JStr(iso(m.timestamp))
    && d["channel_id"] == JStr(m.channelId)
    && d["channel_name"] == JStr(m.channelName)
    && d["server_id"] == JStr(m.serverId)
    && d["server_name"] == JStr(m.serverName)
    && d["message_type"] == OptStr(m.messageType)
    && d["media_url"] == OptStr(m.mediaUrl)
    && d["media_filename"] == OptStr(m.mediaFilename)
    && d["is_bot"] == OptBool(m.isBot)
    && d["created_at"] == OptTime(m.createdAt, iso)
  }

  // `Message.to_dict` writes every column under its own key; the lookups
  // are proved four at a time.

  lemma MessageDictAuthor(m: Message, iso: Instant -> string)
    ensures
      && MessageToDict(m, iso)["id"] == JInt(m.id)
      && MessageToDict(m, iso)["discord_message_id"] == JStr(m.discordMessageId)
      && MessageToDict(m, iso)["user_id"] == JStr(m.userId)
      && MessageToDict(m, iso)["username"] == JStr(m.username)
  {
  }

  lemma MessageDictBody(m: Message, iso: Instant -> string)
    ensures
      && MessageToDict(m, iso)["avatar_url"] == OptStr(m.avatarUrl)
      && MessageToDict(m, iso)["content"] == OptStr(m.content)
      && MessageToDict(m, iso)["timestamp"] == JStr(iso(m.timestamp))
      && MessageToDict(m, iso)["message_type"] == OptStr(m.messageType)
  {
  }

  lemma MessageDictPlace(m: Message, iso: Instant -> string)
    ensures
      && MessageToDict(m, iso)["channel_id"] == JStr(m.channelId)
      && MessageToDict(m, iso)["channel_name"] == JStr(m.channelName)
      && MessageToDict(m, iso)["server_id"] == JStr(m.serverId)
      && MessageToDict(m, iso)["server_name"] == JStr(m.serverName)
  {
  }

  lemma MessageDictMedia(m: Message, iso: Instant -> string)
    ensures
      && MessageToDict(m, iso)["media_url"] == OptStr(m.mediaUrl)
      && MessageToDict(m, iso)["media_filename"] == OptStr(m.mediaFilename)
      && MessageToDict(m, iso)["is_bot"] == OptBool(m.isBot)
      && MessageToDict(m, iso)["created_at"] == OptTime(m.createdAt, iso)
  {
  }

  /** Any dict holding a message's columns decodes to that message when the
      ISO rendering can be parsed back. */
  lemma DecodeHeldMessage(d: map<string, Json>, m: Message, iso: Instant -> string,
                          parseIso: string -> Option<Instant>)
    requires forall t :: parseIso(iso(t)) == Some(t)
    requires HoldsMessage(d, m, iso)
    ensures MessageFromDict(d, parseIso) == Some(m)
  {
    assert AsNat(d["id"]) == Some(m.id);
    assert AsStr(d["discord_message_id"]) == Some(m.discordMessageId);
    assert AsStr(d["user_id"]) == Some(m.userId);
    assert AsStr(d["username"]) == Some(m.username);
    assert AsOptStr(d["avatar_url"]) == Some(m.avatarUrl);
    assert AsOptStr(d["content"]) == Some(m.content);
    assert AsStr(d["channel_id"]) == Some(m.channelId);
    assert AsStr(d["channel_name"]) == Some(m.channelName);
    assert AsStr(d["server_id"]) == Some(m.serverId);
    assert AsStr(d["server_name"]) == Some(m.serverName);
    assert AsOptStr(d["message_type"]) == Some(m.messageType);
    assert AsOptStr(d["media_url"]) == Some(m.mediaUrl);
    assert AsOptStr(d["media_filename"]) == Some(m.mediaFilename);
    assert AsOptBool(d["is_bot"]) == Some(m.isBot);
    assert AsTime(d["timestamp"], parseIso) == Some(m.timestamp) by {
      assert parseIso(iso(m.timestamp)) == Some(m.timestamp);
    }
    assert AsOptTime(d["created_at"], parseIso) == Some(m.createdAt) by {
      if m.createdAt.Some? {
        assert parseIso(iso(m.createdAt.value)) == Some(m.createdAt.value);
      }
    }
  }

  /** `Message.to_dict` loses nothing: when the ISO rendering can be parsed
      back, the record is recovered from its 16 keys. */
  lemma MessageDictRoundTrip(m: Message, iso: Instant -> string, parseIso: string -> Option<Instant>)
    requires forall t :: parseIso(iso(t)) == Some(t)
    ensures MessageFromDict(MessageToDict(m, iso), parseIso) == Some(m)
  {
    MessageDictAuthor(m, iso);
    MessageDictBody(m, iso);
    MessageDictPlace(m, iso);
    MessageDictMedia(m, iso);
    MessageDictKeys(m, iso);
    DecodeHeldMessage(MessageToDict(m, iso), m, iso, parseIso);
  }

  /** `Channel.to_dict` loses nothing either. */
  lemma ChannelDictRoundTrip(c: Channel, iso: Instant -> string, parseIso: string -> Option<Instant>)
    requires forall t :: parseIso(iso(t)) == Some(t)
    ensures ChannelFromDict(ChannelToDict(c, iso), parseIso) == Some(c)
  {
    var d := ChannelToDict(c, iso);
    ChannelDictKeys(c, iso);
    assert d["id"] == JInt(c.id);
    assert d["discord_channel_id"] == JStr(c.discordChannelId);
    assert d["name"] == JStr(c.name);
    assert d["server_id"] == JStr(c.serverId);
    assert d["server_name"] == JStr(c.serverName);
    assert d["created_at"] == OptTime(c.createdAt, iso);
    if c.createdAt.Some? {
      var t := c.createdAt.value;
      assert parseIso(iso(t)) == Some(t);
    }
  }
}
