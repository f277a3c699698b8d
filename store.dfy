/** The relay's store (server/store.ts): the persisted record `data` — message log, read
    cursors, joined lists, last-seen times, topics, briefing, id counter — and the in-memory
    agent registry, as one object whose methods change it in place. Time is the `now`
    parameter; the event emitter is the ghost trace `events`. */
module RelayStore {
  import opened Common
  import opened JsText
  import opened StoreSpec

  /** `search` returns at most this many messages when no limit is given. */
  const DefaultSearchLimit: int := 20

  /** `context` shows this many messages on either side when a count is not given. */
  const DefaultContextSize: int := 5

  class Store {
    var data: StoreData
    /** The registry in insertion order, as a JavaScript `Map` iterates it. */
    var agents: seq<Agent>
    ghost var events: seq<Event>

    /** The record keeps its invariants and registry ids are distinct. */
    predicate Valid()
      reads this`data, this`agents
    {
      DataValid(data) && AgentIdsDistinct(agents)
    }

    /** `getMcpAgents`: the registry with last-seen times, in registry order. */
    function McpAgents(): seq<McpAgent>
      reads this`agents, this`data
    {
      McpAgentsOf(agents, data.lastSeen)
    }

    /** The initial record and an empty registry. */
    constructor ()
      ensures Valid()
      ensures data == EmptyData && agents == [] && events == []
    {
      data := EmptyData;
      agents := [];
      events := [];
    }

    // ---------------------------------------------------------- messages

    /** `post`: appends a message with the next id, evicts, and announces it. */
    method Post(from: string, target: string, text: string, kind: Kind, now: nat) returns (id: nat)
      requires Valid()
      modifies this`data, this`events
      ensures Valid()
      ensures id == old(data.nextId)
      ensures data == old(data).(messages := Evict(old(data.messages) + [Message(id, from, target, text, now, None, kind)]),
                                 nextId := id + 1)
      ensures events == old(events) + [MessageEvent(Message(id, from, target, text, now, None, kind))]
    {
      id := data.nextId;
      var m := Message(id, from, target, text, now, None, kind);
      PostKeepsIds(data.messages, id, m);
      data := data.(messages := Evict(data.messages + [m]), nextId := id + 1);
      events := events + [MessageEvent(m)];
    }

    /** `errata`: replaces the text of the first message with this id and stamps the edit;
        fails when no message has the id. */
    method Errata(messageId: nat, newText: string, now: nat) returns (ok: bool)
      requires Valid()
      modifies this`data, this`events
      ensures Valid()
      ensures ok <==> exists m :: m in old(data.messages) && m.id == messageId
      ensures !ok ==> data == old(data) && events == old(events)
      ensures ok ==> var log := old(data.messages); var i := IndexOfId(log, messageId);
        && data == old(data).(messages := log[i := Edited(log[i], newText, now)])
        && events == old(events) + [MessageEvent(Edited(log[i], newText, now))]
    {
      var i := IndexOfId(data.messages, messageId);
      if i == -1 {
        return false;
      }
      var e := Edited(data.messages[i], newText, now);
      EditKeepsIds(data.messages, i, e, data.nextId);
      data := data.(messages := data.messages[i := e]);
      events := events + [MessageEvent(e)];
      ok := true;
    }

    /** `sync`: the batch of news for `name` since its cursor. A non-empty batch moves the
        cursor to the batch's newest timestamp and deletes the direct messages it delivered;
        the agent is marked as seen either way, and asking again at once yields nothing. */
    method Sync(name: string, now: nat) returns (r: NewsResult)
      requires Valid()
      modifies this`data
      ensures Valid()
      ensures var d := old(data);
        r == Batch(d.messages, name, Elements(JoinedOf(d, name)), d.topics, d.briefing, CursorOf(d, name))
      ensures IsEmptyBatch(r) ==> data == old(data).(lastSeen := old(data.lastSeen)[name := now])
      ensures !IsEmptyBatch(r) ==>
        && name in data.cursors && IsBatchMax(r, data.cursors[name])
        && data.cursors[name] > CursorOf(old(data), name)
        && data == old(data).(messages := RemoveIds(old(data.messages), PrivateIds(r.messages, name)),
                              cursors := old(data.cursors)[name := data.cursors[name]],
                              lastSeen := old(data.lastSeen)[name := now])
      ensures IsEmptyBatch(Batch(data.messages, name, Elements(JoinedOf(data, name)), data.topics,
                                 data.briefing, CursorOf(data, name)))
    {
      var d := data;
      var advanced, maxTime, log;
      r, advanced, maxTime, log := SelectNews(d.messages, name, JoinedOf(d, name), d.topics, d.briefing,
                                              CursorOf(d, name), d.nextId);
      if advanced {
        data := d.(messages := log, cursors := d.cursors[name := maxTime], lastSeen := d.lastSeen[name := now]);
      } else {
        data := d.(lastSeen := d.lastSeen[name := now]);
      }
    }

    /** `allMessages`. */
    function AllMessages(): (r: seq<Message>)
      reads this`data
      ensures r == data.messages
    {
      data.messages
    }

    /** `messagesForTarget`: the log-ordered messages addressed to `target`. */
    function MessagesForTarget(target: string): (r: seq<Message>)
      reads this`data
      ensures forall m :: m in r <==> m in data.messages && m.target == target
    {
      ForTarget(data.messages, target)
    }

    // ---------------------------------------------------------- channels

    /** `join`: records the target in the agent's joined list (creating the list if
        needed) and announces the first join; returns the target's recent history and
        topic either way. */
    method Join(agent: string, target: string, now: nat) returns (r: JoinResult)
      requires Valid()
      modifies this`data, this`events
      ensures Valid()
      ensures var d := old(data); var had := JoinedOf(d, agent);
        && (target in had ==> data == d && events == old(events))
        && (target !in had ==>
              && data == d.(joined := d.joined[agent := had + [target]],
                            messages := Evict(d.messages + [JoinNotice(d.nextId, agent, target, now)]),
                            nextId := d.nextId + 1)
              && events == old(events) + [MessageEvent(JoinNotice(d.nextId, agent, target, now))])
      ensures target in JoinedOf(data, agent)
      ensures r == JoinResult(Recent(data.messages, target), Lookup(data.topics, target))
    {
      // A missing list starts out empty, so the target is then always new to it.
      var list := JoinedOf(data, agent);
      if target !in list {
        AppendNoDup(list, target);
        SetJoinedValid(data, agent, list + [target]);
        data := data.(joined := data.joined[agent := list + [target]]);
        var _ := Post(agent, target, "joined " + target, Kind.Join, now);
      }
      r := JoinResult(Recent(data.messages, target), Lookup(data.topics, target));
    }

    /** `part`: removes the target from the agent's joined list and announces it; does
        nothing when the agent has no list or the target is not in it. */
    method Part(agent: string, target: string, now: nat)
      requires Valid()
      modifies this`data, this`events
      ensures Valid()
      ensures var d := old(data); var had := JoinedOf(d, agent);
        && (target !in had ==> data == d && events == old(events))
        && (target in had ==>
              && data == d.(joined := d.joined[agent := RemoveFirst(had, target)],
                            messages := Evict(d.messages + [PartNotice(d.nextId, agent, target, now)]),
                            nextId := d.nextId + 1)
              && events == old(events) + [MessageEvent(PartNotice(d.nextId, agent, target, now))])
      ensures target !in JoinedOf(data, agent)
    {
      if agent !in data.joined {
        return;
      }
      var list := data.joined[agent];
      var idx := IndexOf(list, target);
      if idx != -1 {
        SetJoinedValid(data, agent, RemoveFirst(list, target));
        data := data.(joined := data.joined[agent := RemoveFirst(list, target)]);
        var _ := Post(agent, target, "left " + target, Kind.Part, now);
      }
    }

    /** `dismiss`: parts every channel of the agent, sends a failure notice back for every
        direct message still waiting for it and deletes those messages, drops the agent's
        cursor, joined list and last-seen time, and removes the first registry entry with
        its name. */
    method Dismiss(agent: string, now: nat)
      requires Valid()
      modifies this
      ensures Valid()
      ensures data == Dismissed(old(data), agent, now)
      ensures events == old(events) + MessageEvents(DismissNotices(old(data), agent, now)) + [AgentsEvent(McpAgents())]
      ensures agents == RemoveFirstNamed(old(agents), agent)
    {
      var d0 := data;
      DismissedValid(d0, agent, now);
      data := DismissData(d0, agent, now);
      RemoveFirstNamedKeeps(agents, agent);
      agents := DeleteFirstNamed(agents, agent);
      events := events + MessageEvents(DismissNotices(d0, agent, now)) + [AgentsEvent(McpAgents())];
    }

    /** `getUsers`: one entry per agent whose joined list holds `target`, with its last-seen
        time when it has one. The order (`Object.entries`) is not modelled. */
    method GetUsers(target: string) returns (users: seq<User>)
      ensures forall u :: u in users ==>
        u.name in Members(data.joined, target) && u.ts == Lookup(data.lastSeen, u.name)
      ensures forall a :: a in Members(data.joined, target) ==> exists u :: u in users && u.name == a
      ensures forall x, y :: 0 <= x < y < |users| ==> users[x].name != users[y].name
    {
      var joined, lastSeen := data.joined, data.lastSeen;
      users := [];
      var rest := joined.Keys;
      while rest != {}
        invariant rest <= joined.Keys
        invariant forall u :: u in users ==> u.name !in rest
        invariant forall u :: u in users ==> u.name in Members(joined, target) && u.ts == Lookup(lastSeen, u.name)
        invariant forall a :: a in Members(joined, target) && a !in rest ==> exists u :: u in users && u.name == a
        invariant forall x, y :: 0 <= x < y < |users| ==> users[x].name != users[y].name
        decreases |rest|
      {
        var a :| a in rest;
        if target in joined[a] {
          users := users + [User(a, Lookup(lastSeen, a))];
        }
        rest := rest - {a};
      }
    }

    /** `getAllAgents`: one entry per name with a last-seen time. The order (`Object.keys`)
        is not modelled. */
    method GetAllAgents() returns (users: seq<User>)
      ensures forall u :: u in users ==> u.name in data.lastSeen && u.ts == Some(data.lastSeen[u.name])
      ensures forall a :: a in data.lastSeen ==> exists u :: u in users && u.name == a
      ensures forall x, y :: 0 <= x < y < |users| ==> users[x].name != users[y].name
    {
      var lastSeen := data.lastSeen;
      users := [];
      var rest := lastSeen.Keys;
      while rest != {}
        invariant rest <= lastSeen.Keys
        invariant forall u :: u in users ==> u.name !in rest
        invariant forall u :: u in users ==> u.name in lastSeen && u.ts == Some(lastSeen[u.name])
        invariant forall a :: a in lastSeen && a !in rest ==> exists u :: u in users && u.name == a
        invariant forall x, y :: 0 <= x < y < |users| ==> users[x].name != users[y].name
        decreases |rest|
      {
        var a :| a in rest;
        users := users + [User(a, Some(lastSeen[a]))];
        rest := rest - {a};
      }
    }

    /** `context`: the window of the log around the message with this id, with
        DefaultContextSize messages either side when a count is not given. */
    function Context(messageId: nat, before: Option<int>, after: Option<int>): (r: seq<Message>)
      reads this`data
      ensures exists lo, hi :: 0 <= lo <= hi <= |data.messages| && r == data.messages[lo..hi]
      ensures IndexOfId(data.messages, messageId) == -1 ==> r == []
      ensures var i := IndexOfId(data.messages, messageId);
        var b := before.GetOr(DefaultContextSize); var a := after.GetOr(DefaultContextSize);
        i >= 0 && b >= 0 && a >= 0 ==> data.messages[i] in r
    {
      var log := data.messages;
      var b := before.GetOr(DefaultContextSize);
      var a := after.GetOr(DefaultContextSize);
      var i := IndexOfId(log, messageId);
      ContextWindow(log, messageId, b, a);
      if i >= 0 && b >= 0 && a >= 0 then
        ContextFound(log, messageId, i, b, a);
        ContextOf(log, messageId, b, a)
      else
        ContextOf(log, messageId, b, a)
    }

    /** `search`: scans the log from its newest message back, collecting the messages that
        pass every filter given, until `limit` (20 when absent) are found. */
    method Search(query: Option<string>, target: Option<string>, sender: Option<string>, limit: Option<int>)
      returns (results: seq<Message>)
      ensures results == SearchResult(data.messages, query, target, sender, limit.GetOr(DefaultSearchLimit))
    {
      results := SearchLog(data.messages, query, target, sender, limit.GetOr(DefaultSearchLimit));
    }

    // ------------------------------------------------------ topics, briefing

    /** `setTopic`: stamps and stores the target's topic and announces it. */
    method SetTopic(agent: string, target: string, text: string, now: nat) returns (topic: Topic)
      requires Valid()
      modifies this`data, this`events
      ensures Valid()
      ensures topic == Topic(text, agent, now)
      ensures data == old(data).(topics := old(data.topics)[target := topic])
      ensures events == old(events) + [TopicEvent(target, topic)]
    {
      topic := Topic(text, agent, now);
      data := data.(topics := data.topics[target := topic]);
      events := events + [TopicEvent(target, topic)];
    }

    /** `getTopic`. */
    function GetTopic(target: string): (r: Option<Topic>)
      reads this`data
      ensures r.Some? <==> target in data.topics
      ensures r.Some? ==> r.value == data.topics[target]
    {
      Lookup(data.topics, target)
    }

    function GetBriefing(): (r: Option<Briefing>)
      reads this`data
      ensures r == data.briefing
    {
      data.briefing
    }

    /** `setBriefing`: stamps and stores the global briefing and announces it. */
    method SetBriefing(text: string, now: nat) returns (b: Briefing)
      requires Valid()
      modifies this`data, this`events
      ensures Valid()
      ensures b == Briefing(text, now)
      ensures data == old(data).(briefing := Some(b))
      ensures events == old(events) + [BriefingEvent(b)]
    {
      b := Briefing(text, now);
      data := data.(briefing := Some(b));
      events := events + [BriefingEvent(b)];
    }

    /** `deleteChannel`: drops the target's messages, takes it out of every joined list and
        deletes its topic. */
    method DeleteChannel(target: string)
      requires Valid()
      modifies this`data, this`events
      ensures Valid()
      ensures data == old(data).(messages := WithoutTarget(old(data.messages), target),
                                 joined := RemovedEverywhere(old(data.joined), target),
                                 topics := old(data.topics) - {target})
      ensures forall a :: a in data.joined ==> target !in data.joined[a]
      ensures events == old(events) + [ChannelDeletedEvent(target)]
    {
      var d := data;
      WithoutTargetKeepsIds(d.messages, target, d.nextId);
      var joined := RemoveFromEveryList(d.joined, target);
      data := d.(messages := WithoutTarget(d.messages, target), joined := joined, topics := d.topics - {target});
      events := events + [ChannelDeletedEvent(target)];
    }

    /** `getAllChannels`. */
    function GetAllChannels(): (r: seq<ChannelInfo>)
      reads this`data
      ensures forall i, j :: 0 <= i < j < |r| ==> StrLt(r[i].name, r[j].name)
      ensures forall m :: m in data.messages && IsChannelName(m.target) ==>
        exists i :: 0 <= i < |r| && r[i].name == m.target
      ensures forall i :: 0 <= i < |r| ==>
        && IsChannelName(r[i].name) && (exists m :: m in data.messages && m.target == r[i].name)
        && r[i].topic == TopicText(data.topics, r[i].name)
        && r[i].memberCount == |Members(data.joined, r[i].name)|
    {
      ChannelListing(data.messages, data.topics, data.joined);
      ChannelInfos(data.messages, data.topics, data.joined)
    }

    // ---------------------------------------------------------- registry

    /** `generateId`: the first of the random draws that no registered agent uses. Each
        draw is five characters of the id alphabet; the retry succeeds at some draw. */
    method GenerateId(draws: seq<string>) returns (id: string)
      requires forall k :: 0 <= k < |draws| ==> WellFormedId(draws[k])
      requires exists k :: 0 <= k < |draws| && draws[k] !in AgentIds(agents)
      ensures WellFormedId(id) && id !in AgentIds(agents)
      ensures exists k :: 0 <= k < |draws| && id == draws[k] && forall j :: 0 <= j < k ==> draws[j] in AgentIds(agents)
    {
      var k := 0;
      while draws[k] in AgentIds(agents)
        invariant 0 <= k < |draws|
        invariant forall j :: 0 <= j < k ==> draws[j] in AgentIds(agents)
        invariant exists j :: k <= j < |draws| && draws[j] !in AgentIds(agents)
        decreases |draws| - k
      {
        k := k + 1;
      }
      id := draws[k];
    }

    /** `welcome`: registers a fresh agent named `anon-<id>`, marks that name as seen, and
        returns its id with the current briefing. */
    method Welcome(draws: seq<string>, now: nat) returns (r: WelcomeResult)
      requires Valid()
      requires forall k :: 0 <= k < |draws| ==> WellFormedId(draws[k])
      requires exists k :: 0 <= k < |draws| && draws[k] !in AgentIds(agents)
      modifies this
      ensures Valid()
      ensures WellFormedId(r.agentId) && r.agentId !in AgentIds(old(agents))
      ensures agents == old(agents) + [Agent(r.agentId, "anon-" + r.agentId)]
      ensures data == old(data).(lastSeen := old(data.lastSeen)["anon-" + r.agentId := now])
      ensures r.briefing == data.briefing
      ensures events == old(events) + [AgentsEvent(McpAgents())]
    {
      var id := GenerateId(draws);
      var name := "anon-" + id;
      assert forall a :: a in agents ==> a.id in AgentIds(agents);
      agents := agents + [Agent(id, name)];
      data := data.(lastSeen := data.lastSeen[name := now]);
      events := events + [AgentsEvent(McpAgents())];
      r := WelcomeResult(id, data.briefing);
    }

    /** `setAgentName`: renames a registered agent unless another registered agent already
        has the name, moving the old name's cursor, joined list and last-seen time to the
        new name. */
    method SetAgentName(agentId: string, newName: string) returns (r: RenameResult)
      requires Valid()
      modifies this
      ensures Valid()
      ensures var i := IndexOfAgent(old(agents), agentId);
        && (i == -1 ==> r == RenameResult(false, "", Some("Unknown agentId. Call welcome() first.")))
        && (i >= 0 && NameTaken(old(agents), agentId, newName) ==>
              r == RenameResult(false, old(agents)[i].name, Some("Name \"" + newName + "\" is already taken.")))
        && (i >= 0 && !NameTaken(old(agents), agentId, newName) ==> r == RenameResult(true, newName, None))
      ensures var i := IndexOfAgent(old(agents), agentId); var d := old(data);
        if i >= 0 && !NameTaken(old(agents), agentId, newName) && old(agents)[i].name != newName then
          var oldName := old(agents)[i].name;
          && agents == old(agents)[i := Agent(agentId, newName)]
          && data == d.(cursors := Migrate(d.cursors, oldName, newName),
                        joined := Migrate(d.joined, oldName, newName),
                        lastSeen := Migrate(d.lastSeen, oldName, newName))
          && events == old(events) + [AgentsEvent(McpAgents())]
        else
          agents == old(agents) && data == d && events == old(events)
      ensures r.ok && NamesDistinct(old(agents)) ==> NamesDistinct(agents)
    {
      var i := IndexOfAgent(agents, agentId);
      if i == -1 {
        return RenameResult(false, "", Some("Unknown agentId. Call welcome() first."));
      }
      var agent := agents[i];
      // the uniqueness scan over `agents.values()`
      var j := 0;
      while j < |agents|
        invariant 0 <= j <= |agents|
        invariant forall x :: 0 <= x < j ==> !(agents[x].id != agentId && agents[x].name == newName)
      {
        if agents[j].id != agentId && agents[j].name == newName {
          assert agents[j] in agents;
          return RenameResult(false, agent.name, Some("Name \"" + newName + "\" is already taken."));
        }
        j := j + 1;
      }
      assert !NameTaken(agents, agentId, newName) by {
        forall a | a in agents ensures !(a.id != agentId && a.name == newName) {
          var x :| 0 <= x < |agents| && agents[x] == a;
        }
      }
      var oldName := agent.name;
      if oldName == newName {
        return RenameResult(true, newName, None);
      }
      data := data.(cursors := Migrate(data.cursors, oldName, newName),
                    joined := Migrate(data.joined, oldName, newName),
                    lastSeen := Migrate(data.lastSeen, oldName, newName));
      RenameKeepsDistinct(agents, i, newName);
      assert agents[i := agents[i].(name := newName)] == agents[i := Agent(agentId, newName)];
      agents := agents[i := Agent(agentId, newName)];
      events := events + [AgentsEvent(McpAgents())];
      r := RenameResult(true, newName, None);
    }

    /** `resolveAgent`: the registered name for an id. */
    function ResolveAgent(agentId: string): (r: Option<string>)
      reads this`agents
      ensures r.Some? <==> exists a :: a in agents && a.id == agentId
      ensures r.Some? ==> exists a :: a in agents && a.id == agentId && a.name == r.value
    {
      var i := IndexOfAgent(agents, agentId);
      if i == -1 then None else Some(agents[i].name)
    }

    /** `getAgent`. */
    function GetAgent(agentId: string): (r: Option<Agent>)
      reads this`agents
      ensures r.Some? <==> exists a :: a in agents && a.id == agentId
      ensures r.Some? ==> r.value in agents && r.value.id == agentId
    {
      var i := IndexOfAgent(agents, agentId);
      if i == -1 then None else Some(agents[i])
    }

    /** `removeAgent`: forgets the registry entry with this id and announces the registry. */
    method RemoveAgent(agentId: string)
      requires Valid()
      modifies this`agents, this`events
      ensures Valid()
      ensures agents == RemoveAgentId(old(agents), agentId)
      ensures forall a :: a in agents ==> a.id != agentId
      ensures events == old(events) + [AgentsEvent(McpAgents())]
    {
      RemoveAgentIdKeeps(agents, agentId);
      agents := RemoveAgentId(agents, agentId);
      events := events + [AgentsEvent(McpAgents())];
    }
  }
  /** The scan of `search`: from the newest message back, collecting matches until `lim`
      of them are found. */
  method SearchLog(log: seq<Message>, query: Option<string>, target: Option<string>, sender: Option<string>, lim: int)
    returns (results: seq<Message>)
    ensures results == SearchResult(log, query, target, sender, lim)
  {
    ghost var rev := Reverse(log);
    results := [];
    var i := |log| - 1;
    while i >= 0 && |results| < lim
      invariant -1 <= i < |log|
      invariant results == Hits(rev[..|log| - 1 - i], query, target, sender)
      invariant |results| <= Max(lim, 0)
      decreases i
    {
      var m := log[i];
      ScanStep(rev, |log| - 1 - i, m, query, target, sender);
      if Matches(m, query, target, sender) {
        results := results + [m];
      }
      i := i - 1;
    }
    ScanComplete(log, |log| - 1 - i, results, query, target, sender, lim);
  }

  /** The loop of `deleteChannel` over the joined lists: the first occurrence of `target`
      is spliced out of each list that holds it. */
  method RemoveFromEveryList(joined0: map<string, seq<string>>, target: string)
    returns (joined: map<string, seq<string>>)
    ensures joined == RemovedEverywhere(joined0, target)
  {
    joined := joined0;
    var rest := joined.Keys;
    while rest != {}
      invariant rest <= joined.Keys && joined.Keys == joined0.Keys
      invariant forall a :: a in rest ==> joined[a] == joined0[a]
      invariant forall a :: a in joined && a !in rest ==> joined[a] == RemoveFirst(joined0[a], target)
      decreases |rest|
    {
      var a :| a in rest;
      var list := joined[a];
      var idx := IndexOf(list, target);
      if idx != -1 {
        joined := joined[a := RemoveFirst(list, target)];
      } else {
        assert RemoveFirst(list, target) == list;
      }
      rest := rest - {a};
    }
    RemovedEverywhereFrom(joined0, joined, target);
  }

  /** What `dismiss` does to the store's record: both loops, the deletion of the bounced
      direct messages and the removal of the agent's own entries. */
  method DismissData(d0: StoreData, agent: string, now: nat) returns (d: StoreData)
    requires |d0.messages| <= MaxMessages
    ensures d == Dismissed(d0, agent, now)
  {
    var channels := JoinedOf(d0, agent);
    var d1 := PartAll(d0, agent, channels, now);
    var unread := Undelivered(d1.messages, agent);
    var d2 := BounceAll(d1, agent, unread, now);
    var log := d2.messages;
    if |unread| > 0 {
      log := RemoveIds(log, IdSet(unread));
    } else {
      assert IdSet(unread) == {};
      RemoveNoIds(log);
    }
    d := d2.(messages := log, joined := d2.joined - {agent}, lastSeen := d2.lastSeen - {agent},
             cursors := d2.cursors - {agent});
    DismissedSteps(d0, d1, d2, agent, now);
  }

  /** The first loop of `dismiss`: parts each of the agent's channels in turn, which
      empties its joined list and files one part notice per channel. */
  method PartAll(d0: StoreData, agent: string, channels: seq<string>, now: nat) returns (d: StoreData)
    requires |d0.messages| <= MaxMessages && channels == JoinedOf(d0, agent)
    ensures d == PartedAll(d0, agent, channels, now)
    ensures d == d0.(joined := if agent in d0.joined then d0.joined[agent := []] else d0.joined,
                     messages := Evict(d0.messages + PartNotices(agent, channels, d0.nextId, now)),
                     nextId := d0.nextId + |channels|)
  {
    d := d0;
    var i := 0;
    while i < |channels|
      invariant 0 <= i <= |channels|
      invariant d == PartedAll(d0, agent, channels[..i], now)
    {
      assert channels[..i + 1][..i] == channels[..i];
      d := Parted(d, agent, channels[i], now);
      i := i + 1;
    }
    assert channels[..i] == channels;
    PartedAllOwn(d0, agent, now);
  }

  /** The second loop of `dismiss`: one failure notice back to the sender of each of
      these messages, posted in order. */
  method BounceAll(d0: StoreData, agent: string, unread: seq<Message>, now: nat) returns (d: StoreData)
    requires |d0.messages| <= MaxMessages
    ensures d == BouncedAll(d0, agent, unread, now)
    ensures d == d0.(messages := Evict(d0.messages + Bounces(agent, unread, d0.nextId, now)),
                     nextId := d0.nextId + |unread|)
  {
    d := d0;
    var k := 0;
    while k < |unread|
      invariant 0 <= k <= |unread|
      invariant d == BouncedAll(d0, agent, unread[..k], now)
    {
      assert unread[..k + 1][..k] == unread[..k];
      d := Posted(d, Bounce(d.nextId, agent, unread[k], now));
      k := k + 1;
    }
    assert unread[..k] == unread;
    BouncedAllClosed(d0, agent, unread, now);
  }

  /** The computing part of `sync`: the batch, whether the cursor advances and to what,
      and the log without the delivered direct messages. */
  method SelectNews(log: seq<Message>, name: string, joinedList: seq<string>, topics: map<string, Topic>,
                    briefing: Option<Briefing>, cursor: nat, nextId: nat)
    returns (r: NewsResult, advanced: bool, maxTime: nat, log': seq<Message>)
    requires IdsIncreasing(log) && IdsBelow(log, nextId) && |log| <= MaxMessages
    ensures r == Batch(log, name, Elements(joinedList), topics, briefing, cursor)
    ensures advanced <==> !IsEmptyBatch(r)
    ensures !advanced ==> log' == log
    ensures advanced ==>
      && IsBatchMax(r, maxTime) && maxTime > cursor
      && log' == RemoveIds(log, PrivateIds(r.messages, name))
      && IsEmptyBatch(Batch(log', name, Elements(joinedList), topics, briefing, maxTime))
    ensures IdsIncreasing(log') && IdsBelow(log', nextId) && |log'| <= MaxMessages
  {
    var channelSet := Elements(joinedList);
    var news := News(log, name, channelSet, cursor);
    // `for (const ch of new Set(...))`: each joined channel once, first occurrence first
    var changed, topicTimes := CollectTopics(Dedup(joinedList), topics, cursor);
    assert changed == ChangedTopics(channelSet, topics, cursor);
    var b := ChangedBriefing(briefing, cursor);
    r := NewsResult(news, changed, b);
    assert r == Batch(log, name, channelSet, topics, briefing, cursor);
    SyncOutcome(log, name, channelSet, topics, briefing, cursor, topicTimes);
    maxTime := SeqMax(ItemTimes(r, topicTimes));
    advanced := maxTime > cursor;
    log' := log;
    if advanced {
      var privateIds := PrivateIds(news, name);
      RemoveIdsKeepsIds(log, privateIds, nextId);
      if |privateIds| > 0 {
        log' := RemoveIds(log, privateIds);
      } else {
        RemoveNoIds(log);
      }
    }
  }

  /** The topic loop of `sync`: the topics of these channels set after the cursor, and
      their timestamps. */
  method CollectTopics(channels: seq<string>, topics: map<string, Topic>, cursor: nat)
    returns (changed: map<string, Topic>, times: seq<nat>)
    ensures changed == ChangedTopics(Elements(channels), topics, cursor)
    ensures forall t :: t in times <==> exists ch :: ch in changed && changed[ch].ts == t
  {
    changed := map[];
    times := [];
    var i := 0;
    while i < |channels|
      invariant 0 <= i <= |channels|
      invariant forall ch :: ch in changed <==> ch in channels[..i] && ch in topics && topics[ch].ts > cursor
      invariant forall ch :: ch in changed ==> changed[ch] == topics[ch]
      invariant forall t :: t in times <==> exists ch :: ch in changed && changed[ch].ts == t
    {
      var ch := channels[i];
      assert channels[..i + 1] == channels[..i] + [ch];
      if ch in topics && topics[ch].ts > cursor {
        changed := changed[ch := topics[ch]];
        times := times + [topics[ch].ts];
      }
      i := i + 1;
    }
    assert channels[..i] == channels;
  }

  /** The scan of `dismiss` over `agents.entries()`: deletes the first entry with this
      name and stops, or leaves the registry alone when there is none. */
  method DeleteFirstNamed(agents: seq<Agent>, name: string) returns (r: seq<Agent>)
    ensures r == RemoveFirstNamed(agents, name)
  {
    var j := 0;
    while j < |agents| && agents[j].name != name
      invariant 0 <= j <= |agents|
      invariant forall x :: 0 <= x < j ==> agents[x].name != name
    {
      j := j + 1;
    }
    if j < |agents| {
      r := agents[..j] + agents[j + 1..];
    } else {
      r := agents;
    }
  }

  /** While fewer than 36^5 agents are registered, a draw sequence that lets `welcome`
      succeed exists. */
  lemma WelcomeCanSucceed(agents: seq<Agent>)
    requires |agents| < IdSpace
    ensures exists id :: WellFormedId(id) && id !in AgentIds(agents)
  {
    AgentIdsCard(agents);
    FreshIdExists(AgentIds(agents));
  }
}
