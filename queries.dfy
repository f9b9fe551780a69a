/** The read side of the archive: messages of one channel (optionally
    searched, ordered by timestamp, paginated), the channel list, the distinct
    servers, the channels of one server, and the aggregate counts. Each
    query is a function of the current rows. */
module Queries {
  import opened Wrappers
  import opened Text
  import opened Models
  import Pagination
  import opened Sorting
  import Codec

  /** Page number used when the `page` argument is absent or not an integer. */
  const DEFAULT_PAGE: int := 1
  /** Page size used when the `limit` argument is absent or not an integer. */
  const DEFAULT_LIMIT: int := 50

  /** The rows of `rows` that satisfy `keep`, in their original order. */
  function Filter<T(!new)>(rows: seq<T>, keep: T -> bool): (r: seq<T>)
    ensures forall x :: multiset(r)[x] == if keep(x) then multiset(rows)[x] else 0
    ensures forall x :: x in r <==> x in rows && keep(x)
    ensures |r| <= |rows|
  {
    if rows == [] then []
    else
      assert rows == [rows[0]] + rows[1..];
      (if keep(rows[0]) then [rows[0]] else []) + Filter(rows[1..], keep)
  }

  // get_messages

  /** The content filter: an empty search string filters nothing; otherwise
      the content must be present and contain the search string. */
  predicate MatchesSearch(m: Message, search: string)
  {
    search == [] || (m.content.Some? && Contains(m.content.value, search))
  }

  /** The rows `get_messages` selects before ordering. */
  function Matches(rows: seq<Message>, channelId: string, search: string): seq<Message>
  {
    Filter(rows, (m: Message) => m.channelId == channelId && MatchesSearch(m, search))
  }

  function TimestampOf(m: Message): int
  {
    m.timestamp
  }

  predicate SortedByTime(s: seq<Message>)
  {
    SortedBy(s, TimestampOf)
  }

  /** `s` ordered by ascending timestamp, as `ORDER BY timestamp ASC`. */
  function SortByTime(s: seq<Message>): (r: seq<Message>)
    ensures SortedByTime(r)
    ensures multiset(r) == multiset(s)
  {
    SortBySortsAndPermutes(s, TimestampOf);
    SortBy(s, TimestampOf)
  }

  /** The JSON reply of `GET /messages/<channel_id>`, with the rows that its
      `messages` array serialises. */
  datatype MessagesReply = MessagesReply(
    messages: seq<Message>,
    total: nat,
    pages: nat,
    currentPage: int,
    hasNext: bool,
    hasPrev: bool)

  /** `get_messages`: the requested page of the channel's messages, filtered
      by `search` when it is non-empty and ordered by timestamp. `page` and
      `limit` are `None` when the query argument is absent or not an
      integer; `search` is `None` when absent. */
  function GetMessages(rows: seq<Message>, channelId: string, page: Option<int>,
                       limit: Option<int>, search: Option<string>): (r: MessagesReply)
    ensures forall m :: m in r.messages ==> m in rows && m.channelId == channelId
    ensures forall m :: m in r.messages && search.Some? && search.value != [] ==>
      m.content.Some? && Contains(m.content.value, search.value)
    ensures SortedByTime(r.messages)
    ensures |r.messages| <= Pagination.EffectivePerPage(limit.GetOr(DEFAULT_LIMIT))
    ensures r.total == |Matches(rows, channelId, search.GetOr(""))|
    ensures r.currentPage == page.GetOr(DEFAULT_PAGE)
    ensures r.hasPrev <==> page.GetOr(DEFAULT_PAGE) > 1
  {
    var pg := page.GetOr(DEFAULT_PAGE);
    var matches := Matches(rows, channelId, search.GetOr(""));
    var sorted := SortByTime(matches);
    var p := Pagination.Paginate(sorted, pg, limit.GetOr(DEFAULT_LIMIT));
    Pagination.PageRowsFromSource(sorted, pg, limit.GetOr(DEFAULT_LIMIT));
    Pagination.PageOfSorted(sorted, pg, limit.GetOr(DEFAULT_LIMIT), TimestampOf);
    SortedRowsAreMatches(rows, channelId, search.GetOr(""));
    MessagesReply(p.items, p.total, p.pages, pg, p.hasNext, p.hasPrev)
  }

  /** The matches of `get_messages` in the order the query returns them. */
  function OrderedMatches(rows: seq<Message>, channelId: string, search: Option<string>): seq<Message>
  {
    SortByTime(Matches(rows, channelId, search.GetOr("")))
  }

  /** `get_messages` answers with the requested page of the ordered matches
      and its bookkeeping. */
  lemma GetMessagesServesPage(rows: seq<Message>, channelId: string, page: Option<int>,
                              limit: Option<int>, search: Option<string>)
    ensures var r := GetMessages(rows, channelId, page, limit, search);
      var p := Pagination.Paginate(OrderedMatches(rows, channelId, search),
                                   page.GetOr(DEFAULT_PAGE), limit.GetOr(DEFAULT_LIMIT));
      && r.messages == p.items && r.total == p.total && r.pages == p.pages
      && r.hasNext == p.hasNext && r.hasPrev == p.hasPrev
  {
  }

  /** The page flags of `get_messages`: a next page exists exactly when the
      rows up to the end of the served page do not exhaust the matches, and
      a page past the last one is empty rather than an error. */
  lemma GetMessagesPageFlags(rows: seq<Message>, channelId: string, page: Option<int>,
                             limit: Option<int>, search: Option<string>)
    ensures var r := GetMessages(rows, channelId, page, limit, search);
      var pg := Pagination.EffectivePage(page.GetOr(DEFAULT_PAGE));
      var pp := Pagination.EffectivePerPage(limit.GetOr(DEFAULT_LIMIT));
      && (r.hasNext <==> pg * pp < r.total)
      && (r.messages == [] <==> pg > r.pages)
  {
    var sorted := SortByTime(Matches(rows, channelId, search.GetOr("")));
    Pagination.HasNextIff(sorted, page.GetOr(DEFAULT_PAGE), limit.GetOr(DEFAULT_LIMIT));
    Pagination.NonEmptyIff(sorted, page.GetOr(DEFAULT_PAGE), limit.GetOr(DEFAULT_LIMIT));
  }

  /** The ordered matches are exactly the matches: the same rows, each with
      the channel and passing the search. */
  lemma SortedRowsAreMatches(rows: seq<Message>, channelId: string, search: string)
    ensures var sorted := SortByTime(Matches(rows, channelId, search));
      |sorted| == |Matches(rows, channelId, search)| &&
      forall m :: m in sorted ==> m in rows && m.channelId == channelId && MatchesSearch(m, search)
  {
    var matches := Matches(rows, channelId, search);
    var sorted := SortByTime(matches);
    forall m | m in sorted ensures m in matches {
      assert m in multiset(sorted);
    }
    assert |sorted| == |multiset(sorted)| == |multiset(matches)| == |matches|;
  }

  /** Every stored message of the channel that passes the search is served on
      some page within the reported page count. */
  lemma EveryMatchIsServed(rows: seq<Message>, channelId: string, limit: Option<int>,
                           search: Option<string>, m: Message)
    requires m in rows && m.channelId == channelId && MatchesSearch(m, search.GetOr(""))
    ensures exists j :: (1 <= j <= GetMessages(rows, channelId, Some(1), limit, search).pages
                         && m in GetMessages(rows, channelId, Some(j), limit, search).messages)
  {
    var matches := Matches(rows, channelId, search.GetOr(""));
    var sorted := OrderedMatches(rows, channelId, search);
    assert m in matches;
    assert multiset(sorted) == multiset(matches);
    assert m in multiset(sorted);
    var pp := limit.GetOr(DEFAULT_LIMIT);
    Pagination.ServedOnSomePage(sorted, pp, m);
    var j :| 1 <= j <= Pagination.Paginate(sorted, 1, pp).pages && m in Pagination.Paginate(sorted, j, pp).items;
    GetMessagesServesPage(rows, channelId, Some(1), limit, search);
    GetMessagesServesPage(rows, channelId, Some(j), limit, search);
    assert 1 <= j <= GetMessages(rows, channelId, Some(1), limit, search).pages;
    assert m in GetMessages(rows, channelId, Some(j), limit, search).messages;
  }

  // get_channels, get_servers, get_server_channels, get_stats

  /** `get_channels`: every channel row serialised, in store order. */
  function ListChannels(channels: seq<Channel>, iso: Instant -> string): (r: seq<map<string, Json>>)
    ensures |r| == |channels|
    ensures forall i :: 0 <= i < |r| ==> r[i] == ChannelToDict(channels[i], iso)
  {
    seq(|channels|, i requires 0 <= i < |channels| => ChannelToDict(channels[i], iso))
  }

  /** The channel list loses nothing: given a timestamp format that the ISO
      parser reads back, every entry decodes to the row it came from, in
      table order. */
  lemma ListChannelsRoundTrip(channels: seq<Channel>, iso: Instant -> string,
                              parseIso: string -> Option<Instant>)
    requires forall t :: parseIso(iso(t)) == Some(t)
    ensures |ListChannels(channels, iso)| == |channels|
    ensures forall i :: 0 <= i < |channels| ==>
      Codec.ChannelFromDict(ListChannels(channels, iso)[i], parseIso) == Some(channels[i])
  {
    forall i | 0 <= i < |channels|
      ensures Codec.ChannelFromDict(ListChannels(channels, iso)[i], parseIso) == Some(channels[i])
    {
      Codec.ChannelDictRoundTrip(channels[i], iso, parseIso);
    }
  }

  /** The elements of `s` without repetitions, first occurrences kept. */
  function Distinct<T(==,!new)>(s: seq<T>): (r: seq<T>)
    ensures forall x :: x in r <==> x in s
    ensures forall i, j :: 0 <= i < j < |r| ==> r[i] != r[j]
  {
    if s == [] then []
    else
      var r := Distinct(s[..|s| - 1]);
      assert s == s[..|s| - 1] + [s[|s| - 1]];
      if s[|s| - 1] in r then r else r + [s[|s| - 1]]
  }

  /** `get_servers`: the distinct (server_id, server_name) pairs of the
      channel rows. */
  function GetServers(channels: seq<Channel>): (r: seq<(string, string)>)
    ensures forall sid, name :: (sid, name) in r <==>
      exists c :: c in channels && c.serverId == sid && c.serverName == name
    ensures forall i, j :: 0 <= i < j < |r| ==> r[i] != r[j]
  {
    var pairs := seq(|channels|, i requires 0 <= i < |channels| => (channels[i].serverId, channels[i].serverName));
    assert forall c :: c in channels ==> (c.serverId, c.serverName) in pairs by {
      forall c | c in channels ensures (c.serverId, c.serverName) in pairs {
        var i :| 0 <= i < |channels| && channels[i] == c;
        assert pairs[i] == (c.serverId, c.serverName);
      }
    }
    Distinct(pairs)
  }

  /** `get_server_channels`: the channel rows of one server, in store order. */
  function GetServerChannels(channels: seq<Channel>, serverId: string): (r: seq<Channel>)
    ensures forall c :: c in r <==> c in channels && c.serverId == serverId
    ensures forall c :: c in channels && c.serverId == serverId ==> multiset(r)[c] == multiset(channels)[c]
  {
    Filter(channels, (c: Channel) => c.serverId == serverId)
  }

  /** The distinct server IDs among the channel rows. */
  function ServerIds(channels: seq<Channel>): set<string>
  {
    set c | c in channels :: c.serverId
  }

  /** The set of values `f` takes on `s`. */
  function Image<A, B>(s: set<A>, f: A -> B): set<B>
  {
    set x | x in s :: f(x)
  }

  /** The set of entries of a sequence. */
  function Elements<T>(s: seq<T>): set<T>
  {
    set x | x in s
  }

  /** `f` maps distinct elements of `s` to distinct values. */
  ghost predicate InjectiveOn<A, B>(s: set<A>, f: A -> B)
  {
    forall x, y :: x in s && y in s && f(x) == f(y) ==> x == y
  }

  /** An image of a set is no larger than the set, and as large when the map
      is injective on it. */
  lemma {:induction false} ImageCard<A, B>(s: set<A>, f: A -> B)
    ensures |Image(s, f)| <= |s|
    ensures InjectiveOn(s, f) ==> |Image(s, f)| == |s|
    decreases |s|
  {
    if s != {} {
      var x :| x in s;
      var rest := s - {x};
      ImageCard(rest, f);
      assert Image(s, f) == Image(rest, f) + {f(x)};
      if InjectiveOn(s, f) {
        assert f(x) !in Image(rest, f);
      }
    } else {
      assert Image(s, f) == {};
    }
  }

  /** A sequence without repetitions has as many distinct entries as entries. */
  lemma {:induction false} DistinctCard<T>(s: seq<T>)
    requires forall i, j :: 0 <= i < j < |s| ==> s[i] != s[j]
    ensures |Elements(s)| == |s|
  {
    if s != [] {
      var init := s[..|s| - 1];
      DistinctCard(init);
      assert Elements(s) == Elements(init) + {s[|s| - 1]};
    } else {
      assert Elements(s) == {};
    }
  }

  /** A sequence has at most as many distinct entries as entries. */
  lemma {:induction false} ElementsCard<T>(s: seq<T>)
    ensures |Elements(s)| <= |s|
  {
    if s != [] {
      var init := s[..|s| - 1];
      ElementsCard(init);
      assert Elements(s) == Elements(init) + {s[|s| - 1]};
    } else {
      assert Elements(s) == {};
    }
  }

  /** The counts of `GET /stats`. */
  datatype Stats = Stats(totalMessages: nat, totalChannels: nat, totalServers: nat)

  /** `get_stats`: the two row counts and the number of distinct server IDs
      among the channel rows (message rows do not count towards servers). */
  function GetStats(messages: seq<Message>, channels: seq<Channel>): (s: Stats)
    ensures s.totalMessages == |messages| && s.totalChannels == |channels|
    ensures s.totalServers == |ServerIds(channels)|
    ensures s.totalServers <= |GetServers(channels)|
    ensures s.totalServers <= s.totalChannels
  {
    ServerIdsAtMostServers(channels);
    ServerIdsAtMostChannels(channels);
    Stats(|messages|, |channels|, |ServerIds(channels)|)
  }

  function ServerIdOfPair(p: (string, string)): string
  {
    p.0
  }

  function ServerIdOf(c: Channel): string
  {
    c.serverId
  }

  /** The server IDs are the first components of the listed servers, and
      also the server IDs of the channel rows. */
  lemma ServerIdsAsImages(channels: seq<Channel>)
    ensures ServerIds(channels) == Image(Elements(GetServers(channels)), ServerIdOfPair)
    ensures ServerIds(channels) == Image(Elements(channels), ServerIdOf)
  {
    var servers := GetServers(channels);
    var firsts := Image(Elements(servers), ServerIdOfPair);
    forall sid | sid in ServerIds(channels) ensures sid in firsts {
      var c :| c in channels && c.serverId == sid;
      assert (c.serverId, c.serverName) in servers;
      assert (c.serverId, c.serverName) in Elements(servers);
    }
    forall sid | sid in firsts ensures sid in ServerIds(channels) {
      var p :| p in Elements(servers) && ServerIdOfPair(p) == sid;
      assert (p.0, p.1) in servers;
      var c :| c in channels && c.serverId == p.0 && c.serverName == p.1;
    }
    var ids := Image(Elements(channels), ServerIdOf);
    forall sid | sid in ServerIds(channels) ensures sid in ids {
      var c :| c in channels && c.serverId == sid;
      assert c in Elements(channels);
    }
  }

  /** There are at least as many (server_id, server_name) pairs as server
      IDs. */
  lemma ServerIdsAtMostServers(channels: seq<Channel>)
    ensures |ServerIds(channels)| <= |GetServers(channels)|
  {
    var servers := GetServers(channels);
    DistinctCard(servers);
    ImageCard(Elements(servers), ServerIdOfPair);
    ServerIdsAsImages(channels);
  }

  /** There are no more server IDs than channel rows. */
  lemma ServerIdsAtMostChannels(channels: seq<Channel>)
    ensures |ServerIds(channels)| <= |channels|
  {
    ImageCard(Elements(channels), ServerIdOf);
    ServerIdsAsImages(channels);
    ElementsCard(channels);
  }

  /** When every server ID is recorded under one server name, `get_servers`
      lists exactly `total_servers` entries. */
  lemma ServersMatchTotalWhenNamesAgree(channels: seq<Channel>)
    requires forall c, d :: c in channels && d in channels && c.serverId == d.serverId ==>
      c.serverName == d.serverName
    ensures |GetServers(channels)| == GetStats([], channels).totalServers
  {
    var servers := GetServers(channels);
    var pairs := Elements(servers);
    DistinctCard(servers);
    assert InjectiveOn(pairs, ServerIdOfPair) by {
      forall p, q | p in pairs && q in pairs && ServerIdOfPair(p) == ServerIdOfPair(q) ensures p == q {
        assert p in servers && q in servers;
        assert (p.0, p.1) in servers && (q.0, q.1) in servers;
        var c :| c in channels && c.serverId == p.0 && c.serverName == p.1;
        var d :| d in channels && d.serverId == q.0 && d.serverName == q.1;
      }
    }
    ImageCard(pairs, ServerIdOfPair);
    ServerIdsAsImages(channels);
  }
}
