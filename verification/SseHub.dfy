/** The hub that shares one poll of a resource among its event-stream subscribers
    (internal/httpapi/stream.go). Each method body runs under the hub's mutex, so every interleaving
    of subscribers, pollers and consumers is a sequence of these calls. */
module SseHub {
  import opened Text

  const MAX_CHANNELS := 100
  const MAX_PER_SESSION := 4
  const BUFFER := 32
  const MAX_QUEUED := 0x10_0000

  datatype Update = Update(bytes: nat, failed: bool, view: string)

  function Total(updates: seq<Update>): nat {
    if updates == [] then 0 else Total(updates[..|updates| - 1]) + updates[|updates| - 1].bytes
  }

  lemma {:induction false} TotalOfTail(updates: seq<Update>)
    requires updates != []
    ensures Total(updates) == updates[0].bytes + Total(updates[1..])
  {
    if |updates| > 1 {
      TotalOfTail(updates[..|updates| - 1]);
      assert updates[..|updates| - 1][1..] == updates[1..][..|updates[1..]| - 1];
    }
  }

  // ----- the key of a resource

  function Key(session: string, typ: string, id: string): string {
    session + ":" + typ + ":" + id
  }

  /** Keys tell resources apart as long as sessions and types contain no colon. */
  lemma KeyIsInjective(session: string, typ: string, id: string, session': string, typ': string, id': string)
    requires ':' !in session && ':' !in session' && ':' !in typ && ':' !in typ'
    requires Key(session, typ, id) == Key(session', typ', id')
    ensures session == session' && typ == typ' && id == id'
  {
    assert Key(session, typ, id) == session + ":" + (typ + ":" + id);
    assert Key(session', typ', id') == session' + ":" + (typ' + ":" + id');
    CutAt(':', session, typ + ":" + id, session', typ' + ":" + id');
    CutAt(':', typ, id, typ', id');
  }

  /** The types of the streamed resources. */
  const TYPES := ["request", "turn"]

  /** Sessions are identified in hexadecimal, so two resources never share a key. */
  lemma ResourcesHaveTheirKeys(session: string, typ: string, id: string, session': string, typ': string, id': string)
    requires IsId(session) && IsId(session') && typ in TYPES && typ' in TYPES
    ensures Key(session, typ, id) == Key(session', typ', id') <==> session == session' && typ == typ' && id == id'
  {
    hide IsId;
    IdHasNoColon(session);
    IdHasNoColon(session');
    if Key(session, typ, id) == Key(session', typ', id') {
      KeyIsInjective(session, typ, id, session', typ', id');
    }
  }

  lemma IdHasNoColon(s: string)
    requires IsId(s)
    ensures ':' !in s
  {
    assert !IsHex(':');
  }

  // ----- channels and groups

  /** A buffered channel and its subscription. `taken` counts the bytes that the consumer has received
      but not yet reported as drained. */
  class Channel {
    const session: string
    const key: string
    var buffer: seq<Update>
    var closed: bool
    ghost var taken: nat

    constructor (session: string, key: string)
      ensures this.session == session && this.key == key && buffer == [] && !closed && taken == 0
    {
      this.session, this.key, buffer, closed, taken := session, key, [], false, 0;
    }

    /** The non-blocking send; sending on a closed channel would panic. */
    method Send(u: Update) returns (sent: bool)
      requires !closed
      modifies `buffer
      ensures sent <==> |old(buffer)| < BUFFER
      ensures buffer == if sent then old(buffer) + [u] else old(buffer)
    {
      sent := |buffer| < BUFFER;
      if sent {
        buffer := buffer + [u];
      }
    }

    /** Closing twice would panic. */
    method Close()
      requires !closed
      modifies `closed
      ensures closed
    {
      closed := true;
    }

    /** The consumer's side: closing does not take away what is buffered. */
    method Receive() returns (u: Update)
      requires buffer != []
      modifies `buffer, `taken
      ensures u == old(buffer)[0] && buffer == old(buffer)[1..] && taken == old(taken) + u.bytes
      ensures Total(buffer) + taken == old(Total(buffer) + taken)
    {
      TotalOfTail(buffer);
      u, buffer, taken := buffer[0], buffer[1..], taken + buffer[0].bytes;
    }
  }

  class Group {
    const session: string
    const typ: string
    const id: string
    const conversation: string
    var channels: map<Channel, int>
    var last: string

    constructor (session: string, typ: string, id: string, conversation: string)
      ensures this.session == session && this.typ == typ && this.id == id && this.conversation == conversation
      ensures channels == map[] && last == ""
    {
      this.session, this.typ, this.id, this.conversation, channels, last := session, typ, id, conversation, map[], "";
    }

    function Name(): string {
      Key(session, typ, id)
    }
  }

  ghost function OfSession(live: set<Channel>, session: string): set<Channel> {
    set ch | ch in live && ch.session == session
  }

  /** The global and the per-session counts are those of the live channels, within their limits, and
      no session is kept without a channel. */
  ghost predicate IsCounted(count: int, sessions: map<string, int>, live: set<Channel>) {
    && count == |live| && count <= MAX_CHANNELS
    && (forall s | s in sessions :: sessions[s] == |OfSession(live, s)| && 0 < sessions[s] <= MAX_PER_SESSION)
    && (forall ch | ch in live :: ch.session in sessions)
  }

  function Claimed(sessions: map<string, int>, session: string): map<string, int> {
    sessions[session := 1 + if session in sessions then sessions[session] else 0]
  }

  function Released(sessions: map<string, int>, session: string): map<string, int>
    requires session in sessions
  {
    if sessions[session] == 1 then sessions - {session} else sessions[session := sessions[session] - 1]
  }

  lemma CountedMore(count: int, sessions: map<string, int>, live: set<Channel>, ch: Channel)
    requires IsCounted(count, sessions, live) && ch !in live
    requires count < MAX_CHANNELS && (ch.session in sessions ==> sessions[ch.session] < MAX_PER_SESSION)
    ensures IsCounted(count + 1, Claimed(sessions, ch.session), live + {ch})
  {
    OneMore(live, ch);
    var more := Claimed(sessions, ch.session);
    if ch.session !in sessions {
      assert OfSession(live, ch.session) == {};
    }
    forall s | s in more ensures more[s] == |OfSession(live + {ch}, s)| {
      assert OfSession(live + {ch}, s) == if s == ch.session then OfSession(live, s) + {ch} else OfSession(live, s);
    }
  }

  lemma CountedLess(count: int, sessions: map<string, int>, live: set<Channel>, ch: Channel)
    requires IsCounted(count, sessions, live) && ch in live
    ensures IsCounted(count - 1, Released(sessions, ch.session), live - {ch})
  {
    OneLess(live, ch);
    var less := Released(sessions, ch.session);
    forall s | s in less ensures less[s] == |OfSession(live - {ch}, s)| && 0 < less[s] {
      assert OfSession(live - {ch}, s) == if s == ch.session then OfSession(live, s) - {ch} else OfSession(live, s);
    }
    forall c | c in live - {ch} ensures c.session in less {
      if c.session == ch.session {
        assert {c, ch} <= OfSession(live, c.session);
        TwoAtLeast(OfSession(live, c.session), c, ch);
      }
    }
  }

  lemma TwoAtLeast(channels: set<Channel>, a: Channel, b: Channel)
    requires a in channels && b in channels && a != b
    ensures |channels| >= 2
  {
    assert |channels - {a}| == |channels| - 1 && b in channels - {a};
  }

  /** A group as a value. */
  datatype Entry = Entry(session: string, typ: string, channels: map<Channel, int>)

  /** The groups hold exactly the live channels, each under its own key. */
  ghost predicate IsGrouped(table: map<string, Entry>, live: set<Channel>) {
    && (forall key | key in table :: ':' !in table[key].session && ':' !in table[key].typ)
    && (forall key, ch {:trigger ch in table[key].channels} | key in table && ch in table[key].channels ::
          ch in live && ch.key == key && ch.session == table[key].session)
    && (forall ch | ch in live :: ch.key in table && ch in table[ch.key].channels)
  }

  /** A live channel is open, and its queued bytes are those sent but not drained. */
  ghost predicate IsAccounted(ch: Channel, queued: int)
    reads ch
  {
    !ch.closed && |ch.buffer| <= BUFFER && queued == Total(ch.buffer) + ch.taken && queued <= MAX_QUEUED
  }

  ghost predicate IsServed(table: map<string, Entry>, live: set<Channel>)
    requires IsGrouped(table, live)
    reads live
  {
    forall ch | ch in live :: IsAccounted(ch, table[ch.key].channels[ch])
  }

  ghost predicate NoneEmpty(table: map<string, Entry>) {
    forall key | key in table :: table[key].channels != map[]
  }

  /** The table with one channel's queued bytes set, or with the channel removed. */
  ghost function With(table: map<string, Entry>, key: string, ch: Channel, queued: int): map<string, Entry>
    requires key in table
  {
    table[key := table[key].(channels := table[key].channels[ch := queued])]
  }

  ghost function Without(table: map<string, Entry>, ch: Channel): map<string, Entry>
    requires ch.key in table
  {
    table[ch.key := table[ch.key].(channels := table[ch.key].channels - {ch})]
  }

  lemma GroupedWith(table: map<string, Entry>, live: set<Channel>, ch: Channel, queued: int)
    requires IsGrouped(table, live) && ch.key in table && ch.session == table[ch.key].session
    ensures IsGrouped(With(table, ch.key, ch, queued), live + {ch})
  {
  }

  ghost function WithGroup(table: map<string, Entry>, key: string, session: string, typ: string): map<string, Entry> {
    if key in table then table else table[key := Entry(session, typ, map[])]
  }

  /** The table after a subscription. */
  ghost function Joined(table: map<string, Entry>, ch: Channel, typ: string): map<string, Entry> {
    With(WithGroup(table, ch.key, ch.session, typ), ch.key, ch, 0)
  }

  /** What publishing does to one channel: it is sent the update and stays if it can take it, with its
      queued bytes within the limit; otherwise it is closed and dropped, with what it had. */
  ghost predicate IsPublished(ch: Channel, u: Update, before: seq<Update>, queued: int, stays: bool)
    reads ch
  {
    && (stays <==> queued + u.bytes <= MAX_QUEUED && |before| < BUFFER)
    && ch.buffer == (if stays then before + [u] else before) && (!stays ==> ch.closed)
  }

  /** The table with `n` bytes fewer queued for a channel. */
  ghost function Less(table: map<string, Entry>, ch: Channel, n: int): map<string, Entry>
    requires ch.key in table && ch in table[ch.key].channels
  {
    With(table, ch.key, ch, table[ch.key].channels[ch] - n)
  }

  /** The table after a channel has left; an empty group goes with it. */
  ghost function Left(table: map<string, Entry>, ch: Channel): map<string, Entry> {
    if ch.key !in table || ch !in table[ch.key].channels then table
    else if Without(table, ch)[ch.key].channels == map[] then Without(table, ch) - {ch.key}
    else Without(table, ch)
  }

  lemma EntryOf(table: map<string, Entry>, live: set<Channel>, key: string)
    requires IsGrouped(table, live) && key in table
    ensures ':' !in table[key].session && ':' !in table[key].typ
  {
  }

  lemma GroupedNew(table: map<string, Entry>, live: set<Channel>, key: string, session: string, typ: string)
    requires IsGrouped(table, live) && key !in table && ':' !in session && ':' !in typ
    ensures IsGrouped(table[key := Entry(session, typ, map[])], live)
  {
  }

  lemma ServedNew(table: map<string, Entry>, live: set<Channel>, key: string, e: Entry)
    requires IsGrouped(table, live) && key !in table && IsGrouped(table[key := e], live) && IsServed(table, live)
    ensures IsServed(table[key := e], live)
  {
    hide IsAccounted;
  }

  lemma ServedWith(table: map<string, Entry>, live: set<Channel>, ch: Channel, queued: int)
    requires IsGrouped(table, live) && ch.key in table && IsGrouped(With(table, ch.key, ch, queued), live + {ch})
    requires (forall c | c in live && c != ch :: IsAccounted(c, table[c.key].channels[c])) && IsAccounted(ch, queued)
    ensures IsServed(With(table, ch.key, ch, queued), live + {ch})
  {
    hide IsAccounted;
  }

  lemma ServedWithout(table: map<string, Entry>, live: set<Channel>, ch: Channel)
    requires IsGrouped(table, live) && ch.key in table
    requires forall c | c in live && c != ch :: IsAccounted(c, table[c.key].channels[c])
    ensures IsGrouped(Without(table, ch), live - {ch}) && IsServed(Without(table, ch), live - {ch})
    ensures Without(table, ch)[ch.key].channels == map[] ==>
      IsGrouped(Without(table, ch) - {ch.key}, live - {ch}) && IsServed(Without(table, ch) - {ch.key}, live - {ch})
  {
    hide IsAccounted;
    GroupedWithout(table, live, ch);
  }

  lemma GroupedWithout(table: map<string, Entry>, live: set<Channel>, ch: Channel)
    requires IsGrouped(table, live) && ch.key in table
    ensures IsGrouped(Without(table, ch), live - {ch})
    ensures Without(table, ch)[ch.key].channels == map[] ==> IsGrouped(Without(table, ch) - {ch.key}, live - {ch})
  {
    hide IsGrouped;
    GroupedSmaller(table, live, ch);
    if Without(table, ch)[ch.key].channels == map[] {
      GroupedDropped(Without(table, ch), live - {ch}, ch.key);
    }
  }

  lemma GroupedSmaller(table: map<string, Entry>, live: set<Channel>, ch: Channel)
    requires IsGrouped(table, live) && ch.key in table
    ensures IsGrouped(Without(table, ch), live - {ch})
  {
  }

  lemma GroupedDropped(table: map<string, Entry>, live: set<Channel>, key: string)
    requires IsGrouped(table, live) && key in table && table[key].channels == map[]
    ensures IsGrouped(table - {key}, live)
  {
  }

  class Hub {
    var groups: map<string, Group>
    var count: int
    var sessions: map<string, int>

    /** The subscribed channels. */
    ghost var live: set<Channel>

    ghost predicate Named()
      reads this`groups
    {
      forall key | key in groups :: groups[key].Name() == key
    }

    ghost function Table(): map<string, Entry>
      reads this`groups, groups.Values`channels
    {
      map key | key in groups :: Entry(groups[key].session, groups[key].typ, groups[key].channels)
    }

    /** The invariant, except that a group may be empty while its channels are being served. */
    ghost predicate Consistent()
      reads this, groups.Values`channels, live
    {
      Named() && IsCounted(count, sessions, live) && IsGrouped(Table(), live) && IsServed(Table(), live)
    }

    ghost predicate Valid()
      reads this, groups.Values`channels, live
    {
      Consistent() && NoneEmpty(Table())
    }

    constructor ()
      ensures Valid() && live == {} && groups == map[]
    {
      groups, count, sessions, live := map[], 0, map[], {};
    }

    /** `releaseSession`. */
    method Release(session: string)
      requires session in sessions
      modifies `count, `sessions
      ensures count == old(count) - 1 && sessions == Released(old(sessions), session)
    {
      count := count - 1;
      sessions := sessions[session := sessions[session] - 1];
      if sessions[session] == 0 {
        sessions := sessions - {session};
      }
    }

    /** The group of a resource, created at its first subscriber. */
    method GroupFor(session: string, typ: string, id: string, conversation: string) returns (g: Group)
      requires Consistent() && ':' !in session && ':' !in typ
      modifies `groups
      ensures Consistent() && Key(session, typ, id) in groups && groups[Key(session, typ, id)] == g && g.session == session
      ensures Key(session, typ, id) in old(groups) ==> groups == old(groups)
      ensures Key(session, typ, id) !in old(groups) ==> fresh(g) && groups == old(groups)[Key(session, typ, id) := g]
      ensures Table() == WithGroup(old(Table()), Key(session, typ, id), session, typ)
    {
      hide IsCounted, IsAccounted, IsGrouped, IsServed;
      var key := Key(session, typ, id);
      if key in groups {
        g := groups[key];
        EntryOf(Table(), live, key);
        KeyIsInjective(session, typ, id, g.session, g.typ, g.id);
      } else {
        GroupedNew(Table(), live, key, session, typ);
        ServedNew(Table(), live, key, Entry(session, typ, map[]));
        g := new Group(session, typ, id, conversation);
        groups := groups[key := g];
        assert Table() == old(Table())[key := Entry(session, typ, map[])];
      }
    }

    lemma InTable(key: string)
      requires key in groups
      ensures key in Table() && Table()[key] == Entry(groups[key].session, groups[key].typ, groups[key].channels)
    {
    }

    /** Setting the queued bytes of one channel in its group changes the table there and nowhere else. */
    method Put(g: Group, ch: Channel, queued: int)
      requires Named() && ch.key in groups && groups[ch.key] == g
      modifies g`channels
      ensures Named() && g.channels == old(g.channels)[ch := queued] && Table() == With(old(Table()), ch.key, ch, queued)
    {
      g.channels := g.channels[ch := queued];
      assert forall key | key in groups && groups[key] == g :: key == ch.key;
    }

    method Remove(g: Group, ch: Channel)
      requires Named() && ch.key in groups && groups[ch.key] == g
      modifies g`channels
      ensures Named() && g.channels == old(g.channels) - {ch} && Table() == Without(old(Table()), ch)
    {
      g.channels := g.channels - {ch};
      assert forall key | key in groups && groups[key] == g :: key == ch.key;
    }

    method Subscribe(session: string, typ: string, id: string, conversation: string) returns (ch: Channel?, ok: bool)
      requires Valid() && ':' !in session && ':' !in typ
      modifies this, groups.Values
      ensures Valid()
      ensures ok <==> old(count) < MAX_CHANNELS && (session in old(sessions) ==> old(sessions)[session] < MAX_PER_SESSION)
      ensures !ok ==> ch == null && live == old(live) && Table() == old(Table()) && sessions == old(sessions)
      ensures ok ==> ch != null && fresh(ch) && live == old(live) + {ch} && ch.session == session && ch.key == Key(session, typ, id)
      ensures ok ==> Table() == Joined(old(Table()), ch, typ)
    {
      hide IsCounted, Key, IsGrouped, IsServed, NoneEmpty, With, WithGroup, Claimed;
      ch, ok := null, false;
      if count < MAX_CHANNELS && (session in sessions ==> sessions[session] < MAX_PER_SESSION) {
        var g := GroupFor(session, typ, id, conversation);
        ch := Join(g);
        FilledNotEmpty(old(Table()), ch, typ);
        ok := true;
      }
    }

    /** A new channel in an existing group. */
    method Join(g: Group) returns (ch: Channel)
      requires Consistent() && g.Name() in groups && groups[g.Name()] == g
      requires count < MAX_CHANNELS && (g.session in sessions ==> sessions[g.session] < MAX_PER_SESSION)
      modifies this`count, this`sessions, this`live, g`channels
      ensures Consistent() && fresh(ch) && live == old(live) + {ch} && ch.session == g.session && ch.key == g.Name()
      ensures ch.key in old(Table()) && Table() == With(old(Table()), ch.key, ch, 0)
    {
      hide IsCounted, Key, IsGrouped, IsServed, NoneEmpty, With, Claimed, Table, Named, IsAccounted;
      ch := new Channel(g.session, g.Name());
      CountedMore(count, sessions, live, ch);
      ghost var t := Table();
      InTable(g.Name());
      NewIsAccounted(ch);
      ServedMore(t, live, ch);
      Put(g, ch, 0);
      assert Table() == With(t, ch.key, ch, 0);
      assert IsServed(With(t, ch.key, ch, 0), live + {ch});
      count, sessions, live := count + 1, Claimed(sessions, g.session), live + {ch};
    }

    /** The function that `subscribe` returns. Called late it finds its channel in no group, even
        when a group with the same key exists again. */
    method Unsubscribe(ch: Channel)
      requires Valid()
      modifies this, groups.Values
      ensures Valid() && live == old(live) - {ch} && Table() == Left(old(Table()), ch)
      ensures ch !in old(live) ==> groups == old(groups) && sessions == old(sessions) && count == old(count)
    {
      hide IsCounted, Key, IsGrouped, IsServed, NoneEmpty, Without, Released, Named, IsAccounted;
      LiveInGroups(Table(), live, ch);
      if ch.key in groups && ch in groups[ch.key].channels {
        var g := groups[ch.key];
        ServedOthers(Table(), live, ch);
        Leave(g, ch);
        LeftNotEmpty(old(Table()), ch);
        if g.channels == map[] {
          Drop(ch.key);
        }
      }
    }

    /** A live channel leaves its group. */
    method Leave(g: Group, ch: Channel)
      requires Named() && IsCounted(count, sessions, live) && IsGrouped(Table(), live)
      requires forall c | c in live && c != ch :: IsAccounted(c, Table()[c.key].channels[c])
      requires ch in live && ch.key in groups && groups[ch.key] == g
      modifies this`count, this`sessions, this`live, g`channels
      ensures Consistent() && live == old(live) - {ch} && g.channels == old(g.channels) - {ch}
      ensures ch.key in old(Table()) && Table() == Without(old(Table()), ch)
    {
      hide IsCounted, Key, IsGrouped, IsServed, NoneEmpty, Without, Released, Table, Named, IsAccounted;
      ghost var t := Table();
      InTable(ch.key);
      HasSession(count, sessions, live, ch);
      CountedLess(count, sessions, live, ch);
      ServedWithout(t, live, ch);
      Remove(g, ch);
      live := live - {ch};
      Release(ch.session);
      assert Table() == Without(t, ch);
    }

    /** An empty group is dropped. */
    method Drop(key: string)
      requires Consistent() && key in groups && groups[key].channels == map[]
      modifies `groups
      ensures Consistent() && groups == old(groups) - {key} && Table() == old(Table()) - {key}
    {
      hide IsCounted, Key, IsGrouped, IsServed, IsAccounted;
      ghost var t := Table();
      GroupedDropped(t, live, key);
      ServedDropped(t, live, key);
      groups := groups - {key};
      assert Table() == t - {key};
    }

    /** A new count of queued bytes for a live channel. */
    method SetQueued(g: Group, ch: Channel, queued: int)
      requires Named() && IsCounted(count, sessions, live) && IsGrouped(Table(), live)
      requires forall c | c in live && c != ch :: IsAccounted(c, Table()[c.key].channels[c])
      requires IsAccounted(ch, queued) && ch in live && ch.key in groups && groups[ch.key] == g
      modifies g`channels
      ensures Consistent() && g.channels == old(g.channels)[ch := queued] && ch.key in old(Table()) && Table() == With(old(Table()), ch.key, ch, queued)
    {
      hide IsCounted, Key, IsGrouped, IsServed, NoneEmpty, With, Named, IsAccounted, Table;
      ghost var t := Table();
      InTable(ch.key);
      SessionOf(t, live, ch);
      GroupedWith(t, live, ch, queued);
      assert live + {ch} == live;
      ServedWith(t, live, ch, queued);
      Put(g, ch, queued);
      assert Table() == With(t, ch.key, ch, queued);
    }

    /** The consumer reports bytes as drained. It has received them, so the clamp changes nothing. */
    method Drained(key: string, ch: Channel, n: nat)
      requires Valid() && n <= ch.taken
      modifies groups.Values, ch`taken
      ensures Valid() && live == old(live)
      ensures ch !in live || key != ch.key ==> Table() == old(Table()) && ch.taken == old(ch.taken)
      ensures ch in live && key == ch.key ==> ch.key in old(Table()) && ch in old(Table())[ch.key].channels
      ensures ch in live && key == ch.key ==> Table() == Less(old(Table()), ch, n) && ch.taken == old(ch.taken) - n
    {
      hide IsCounted, Key, IsGrouped, IsServed, NoneEmpty, With, Named;
      LiveInGroups(Table(), live, ch);
      if key in groups && ch in groups[key].channels {
        UnderItsKey(Table(), live, key, ch);
        ghost var t := Table();
        var queued := groups[key].channels[ch];
        AccountedNow(t, live, ch);
        ServedOthers(t, live, ch);
        ch.taken := ch.taken - n;
        KeptNotEmpty(t, ch, queued - n);
        SetQueued(groups[key], ch, if queued - n > 0 then queued - n else 0);
      }
    }

    /** A consumer receives an update, which happens outside the mutex: the hub stays as it is. */
    method Consume(ch: Channel) returns (u: Update)
      requires Valid() && ch.buffer != []
      modifies ch`buffer, ch`taken
      ensures Valid() && live == old(live) && Table() == old(Table())
      ensures u == old(ch.buffer)[0] && ch.buffer == old(ch.buffer)[1..] && ch.taken == old(ch.taken) + u.bytes
    {
      hide IsCounted, Key, IsGrouped, IsServed, NoneEmpty, Named, IsAccounted, Total;
      ghost var t, before, taken := Table(), ch.buffer, ch.taken;
      ServedOthers(t, live, ch);
      if ch in live {
        AccountedNow(t, live, ch);
        AccountedAs(ch, t[ch.key].channels[ch]);
      }
      u := ch.Receive();
      if ch in live {
        ReceivedIsAccounted(ch, t[ch.key].channels[ch], before, taken);
      }
      ServedAgain(t, live, ch);
    }

    /** One channel of a published update: the update is queued, or the channel is closed and dropped. */
    method Deliver(g: Group, ch: Channel, u: Update)
      requires Consistent() && ch in live && ch.key in groups && groups[ch.key] == g && ch in g.channels
      modifies this`count, this`sessions, this`live, g`channels, ch`buffer, ch`closed
      ensures Consistent() && live == (if ch in live then old(live) else old(live) - {ch})
      ensures IsPublished(ch, u, old(ch.buffer), old(g.channels)[ch], ch in live)
      ensures g.channels == if ch in live then old(g.channels)[ch := old(g.channels)[ch] + u.bytes] else old(g.channels) - {ch}
    {
      hide IsCounted, Key, IsGrouped, IsServed, NoneEmpty, With, Without, Named, Claimed, Released;
      ghost var t := Table();
      InTable(ch.key);
      AccountedNow(t, live, ch);
      ServedOthers(t, live, ch);
      if g.channels[ch] + u.bytes <= MAX_QUEUED {
        var sent := ch.Send(u);
        if sent {
          SentTotal(ch.buffer, u);
          SetQueued(g, ch, g.channels[ch] + u.bytes);
          return;
        }
      }
      ch.Close();
      Leave(g, ch);
    }

    /** The hub still polls this group under its key. */
    predicate IsCurrent(g: Group)
      reads this`groups
    {
      g.Name() in groups && groups[g.Name()] == g
    }

    /** No group but this one is empty. */
    ghost predicate NoneEmptyBut(g: Group)
      reads this`groups, groups.Values`channels
    {
      forall key | key in groups && groups[key] != g :: groups[key].channels != map[]
    }

    /** A channel of a current group is live, under the group's key. */
    lemma MemberIsLive(g: Group, ch: Channel)
      requires Consistent() && IsCurrent(g) && ch in g.channels
      ensures ch in live && ch.key == g.Name()
    {
      hide IsCounted, Key, IsGrouped, IsServed;
      InTable(g.Name());
      UnderItsKey(Table(), live, g.Name(), ch);
    }

    /** The loop over the channels of one group, which the source visits in any order. */
    method PublishAll(g: Group, sig: string, u: Update)
      requires Consistent() && IsCurrent(g)
      modifies this`count, this`sessions, this`live, g`channels, g`last, g.channels.Keys
      ensures Consistent() && g.last == sig && live <= old(live)
      ensures forall ch | ch in old(live) && ch !in old(g.channels) :: ch in live
      ensures forall ch | ch in old(g.channels) :: IsPublished(ch, u, old(ch.buffer), old(g.channels)[ch], ch in live)
    {
      hide IsCounted, Key, IsGrouped, IsServed, Consistent, IsPublished, Named, Table, IsAccounted, OfSession;
      g.last := sig;
      var todo := g.channels.Keys;
      while todo != {}
        invariant Consistent() && IsCurrent(g) && live <= old(live)
        invariant todo <= g.channels.Keys && todo <= old(g.channels).Keys && g.last == sig
        invariant forall ch | ch in todo :: ch.buffer == old(ch.buffer) && g.channels[ch] == old(g.channels)[ch]
        invariant forall ch | ch in old(live) && ch !in old(g.channels) :: ch in live
        invariant forall ch | ch in old(g.channels) && ch !in todo :: IsPublished(ch, u, old(ch.buffer), old(g.channels)[ch], ch in live)
        decreases |todo|
      {
        var ch :| ch in todo;
        MemberIsLive(g, ch);
        todo := todo - {ch};
        Deliver(g, ch, u);
      }
    }

    /** `publish`: a changed or failed view goes to every channel of the group; one that cannot take it
        is closed and dropped. */
    method Publish(g: Group, sig: string, u: Update)
      requires Valid()
      modifies this, groups.Values, live, g`last, g`channels, g.channels.Keys
      ensures Valid()
      ensures !old(IsCurrent(g)) || (old(g.last) == sig && !u.failed) ==> live == old(live) && Table() == old(Table())
      ensures !old(IsCurrent(g)) || (old(g.last) == sig && !u.failed) ==> forall ch | ch in live :: ch.buffer == old(ch.buffer)
      ensures old(IsCurrent(g)) && (old(g.last) != sig || u.failed) ==>
        && g.last == sig && live <= old(live)
        && (forall ch | ch in old(live) && ch !in old(g.channels) :: ch in live)
        && (forall ch | ch in old(g.channels) :: IsPublished(ch, u, old(ch.buffer), old(g.channels)[ch], ch in live))
    {
      hide IsCounted, Key, IsGrouped, IsServed, NoneEmpty, IsAccounted, Named, Table, Consistent, IsPublished;
      if !IsCurrent(g) {
        return;
      }
      NotEmptyNow(g);
      if g.last != sig || u.failed {
        PublishAll(g, sig, u);
      }
      if g.channels == map[] {
        Drop(g.Name());
      }
      NotEmptyAgain(g);
    }

    lemma NotEmptyNow(g: Group)
      requires Valid() && IsCurrent(g)
      ensures NoneEmptyBut(g) && g.channels != map[]
    {
      hide Consistent;
      InTable(g.Name());
      forall key | key in groups ensures groups[key].channels != map[] {
        InTable(key);
      }
    }

    lemma NotEmptyAgain(g: Group)
      requires Consistent() && NoneEmptyBut(g) && (g.channels == map[] ==> g.Name() !in groups)
      ensures Valid()
    {
      hide IsCounted, IsGrouped, IsServed, Key;
    }
  }

  lemma UnderItsKey(table: map<string, Entry>, live: set<Channel>, key: string, ch: Channel)
    requires IsGrouped(table, live) && key in table && ch in table[key].channels
    ensures ch.key == key && ch in live && ch.session == table[key].session
  {
  }

  lemma SessionOf(table: map<string, Entry>, live: set<Channel>, ch: Channel)
    requires IsGrouped(table, live) && ch in live
    ensures ch.key in table && ch.session == table[ch.key].session
  {
  }

  lemma AccountedNow(table: map<string, Entry>, live: set<Channel>, ch: Channel)
    requires IsGrouped(table, live) && IsServed(table, live) && ch in live
    ensures ch.key in table && ch in table[ch.key].channels && IsAccounted(ch, table[ch.key].channels[ch]) && ch.session == table[ch.key].session
  {
    hide IsAccounted;
  }

  /** What a consumer has received counts as queued until it is drained. */
  lemma ReceivedIsAccounted(ch: Channel, queued: int, before: seq<Update>, taken: nat)
    requires !ch.closed && |before| <= BUFFER && queued == Total(before) + taken && queued <= MAX_QUEUED
    requires before != [] && ch.buffer == before[1..] && ch.taken == taken + before[0].bytes
    ensures IsAccounted(ch, queued)
  {
    TotalOfTail(before);
  }

  lemma ServedAgain(table: map<string, Entry>, live: set<Channel>, ch: Channel)
    requires IsGrouped(table, live) && forall c | c in live && c != ch :: IsAccounted(c, table[c.key].channels[c])
    requires ch in live ==> IsAccounted(ch, table[ch.key].channels[ch])
    ensures IsServed(table, live)
  {
    hide IsAccounted;
  }

  lemma AccountedAs(ch: Channel, queued: int)
    requires IsAccounted(ch, queued)
    ensures !ch.closed && |ch.buffer| <= BUFFER && queued == Total(ch.buffer) + ch.taken && queued <= MAX_QUEUED
  {
  }

  lemma SentTotal(buffer: seq<Update>, u: Update)
    requires buffer != [] && buffer[|buffer| - 1] == u
    ensures Total(buffer) == Total(buffer[..|buffer| - 1]) + u.bytes
  {
  }

  lemma KeptNotEmpty(table: map<string, Entry>, ch: Channel, queued: int)
    requires NoneEmpty(table) && ch.key in table
    ensures NoneEmpty(With(table, ch.key, ch, queued))
  {
    assert ch in With(table, ch.key, ch, queued)[ch.key].channels;
  }

  lemma ServedDropped(table: map<string, Entry>, live: set<Channel>, key: string)
    requires IsGrouped(table, live) && IsServed(table, live) && key in table && table[key].channels == map[] && IsGrouped(table - {key}, live)
    ensures IsServed(table - {key}, live)
  {
    hide IsAccounted;
  }

  lemma ServedOthers(table: map<string, Entry>, live: set<Channel>, ch: Channel)
    requires IsGrouped(table, live) && IsServed(table, live)
    ensures forall c | c in live && c != ch :: IsAccounted(c, table[c.key].channels[c])
  {
    hide IsAccounted;
  }

  lemma LiveInGroups(table: map<string, Entry>, live: set<Channel>, ch: Channel)
    requires IsGrouped(table, live)
    ensures ch in live <==> ch.key in table && ch in table[ch.key].channels
  {
  }

  lemma LeftNotEmpty(table: map<string, Entry>, ch: Channel)
    requires NoneEmpty(table)
    ensures NoneEmpty(Left(table, ch))
  {
  }

  lemma FilledNotEmpty(table: map<string, Entry>, ch: Channel, typ: string)
    requires NoneEmpty(table)
    ensures NoneEmpty(Joined(table, ch, typ))
  {
    assert ch in Joined(table, ch, typ)[ch.key].channels;
  }

  lemma NewIsAccounted(ch: Channel)
    requires ch.buffer == [] && ch.taken == 0 && !ch.closed
    ensures IsAccounted(ch, 0)
  {
  }

  lemma ServedMore(table: map<string, Entry>, live: set<Channel>, ch: Channel)
    requires IsGrouped(table, live) && IsServed(table, live) && ch.key in table && ch.session == table[ch.key].session
    requires ch !in live && IsAccounted(ch, 0)
    ensures IsGrouped(With(table, ch.key, ch, 0), live + {ch}) && IsServed(With(table, ch.key, ch, 0), live + {ch})
  {
    hide IsAccounted;
    GroupedWith(table, live, ch, 0);
    ServedWith(table, live, ch, 0);
  }

  lemma HasSession(count: int, sessions: map<string, int>, live: set<Channel>, ch: Channel)
    requires IsCounted(count, sessions, live) && ch in live
    ensures ch.session in sessions
  {
  }

  lemma OneMore(live: set<Channel>, ch: Channel)
    requires ch !in live
    ensures |live + {ch}| == |live| + 1
    ensures forall s :: OfSession(live + {ch}, s) == if s == ch.session then OfSession(live, s) + {ch} else OfSession(live, s)
  {
  }

  lemma OneLess(live: set<Channel>, ch: Channel)
    requires ch in live
    ensures |live - {ch}| == |live| - 1
    ensures forall s :: OfSession(live - {ch}, s) == if s == ch.session then OfSession(live, s) - {ch} else OfSession(live, s)
  {
  }
}
