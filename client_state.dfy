/** The client-side message state (src/state.ts): the shared message list and its derived
    views, the seeding of the default shell channels, the upsert of streamed messages, the
    cached colour of an agent's name and the rule for the chosen display name. */
module ClientState {
  import opened Common
  import opened JsText

  datatype Kind = Text | Action | Join | Part | Shell | ShellOutput | ShellError | ShellStatus

  /** A message as the client holds it; `type` may be absent. */
  datatype Message = Message(
    id: int, from: string, target: string, text: string,
    ts: int, modified: Option<int>, kind: Option<Kind>)

  datatype McpAgent = McpAgent(id: string, name: string, ts: Option<int>)

  datatype Topic = Topic(text: string, setBy: string, ts: int)

  datatype Briefing = Briefing(text: string, updatedAt: int)

  /** The events of the server stream. */
  datatype StreamEvent =
    | MessagesEvent(messages: seq<Message>)
    | MessageEvent(message: Message)
    | AgentsEvent(agents: seq<McpAgent>)
    | TopicEvent(target: string, topic: Topic)
    | BriefingEvent(briefing: Briefing)
    | ChannelDeletedEvent(target: string)

  // ------------------------------------------------------------ derived views

  function TargetsOf(s: seq<Message>): (r: seq<string>)
    ensures |r| == |s|
    ensures forall k :: 0 <= k < |s| ==> r[k] == s[k].target
  {
    if s == [] then [] else TargetsOf(s[..|s| - 1]) + [s[|s| - 1].target]
  }

  /** The targets of the list are exactly the targets of its messages. */
  lemma TargetsOfMembers(s: seq<Message>)
    ensures forall t :: t in TargetsOf(s) <==> exists m :: m in s && m.target == t
  {
    var ts := TargetsOf(s);
    forall t | t in ts ensures exists m :: m in s && m.target == t {
      var k :| 0 <= k < |ts| && ts[k] == t;
      assert s[k] in s;
    }
    forall m | m in s ensures m.target in ts {
      var k :| 0 <= k < |s| && s[k] == m;
      assert ts[k] == m.target;
    }
  }

  /** `targetNames()`: the distinct targets of the messages, sorted. */
  function TargetNames(s: seq<Message>): seq<string> {
    SortedDistinct(TargetsOf(s))
  }

  /** The target names are sorted without repeats and name exactly the targets that occur. */
  lemma TargetNamesExact(s: seq<Message>)
    ensures StrictlySorted(TargetNames(s))
    ensures forall t :: t in TargetNames(s) <==> exists m :: m in s && m.target == t
  {
    TargetsOfMembers(s);
  }

  /** `messagesForTarget(target)`: the messages addressed to `target`, in list order. */
  function MessagesForTarget(s: seq<Message>, target: string): seq<Message> {
    Filter(s, (m: Message) => m.target == target)
  }

  /** The messages for a target are exactly those of the list addressed to it. */
  lemma MessagesForTargetExact(s: seq<Message>, target: string)
    ensures forall m :: m in MessagesForTarget(s, target) <==> m in s && m.target == target
    ensures |MessagesForTarget(s, target)| <= |s|
  {
  }

  predicate IsChannel(t: string) {
    StartsWith(t, "#")
  }

  predicate IsShellChannel(t: string) {
    StartsWith(t, "$")
  }

  function ToChannel(m: Message): bool {
    IsChannel(m.target)
  }

  /** `channelNames()`: the distinct '#'-targets of the messages, sorted. */
  function ChannelNames(s: seq<Message>): seq<string> {
    SortedDistinct(TargetsOf(Filter(s, ToChannel)))
  }

  /** The channel names are sorted without repeats and name exactly the '#'-targets that occur. */
  lemma ChannelNamesExact(s: seq<Message>)
    ensures StrictlySorted(ChannelNames(s))
    ensures forall t :: t in ChannelNames(s) <==> IsChannel(t) && exists m :: m in s && m.target == t
  {
    var f := Filter(s, ToChannel);
    TargetsOfMembers(f);
    forall t | IsChannel(t) && (exists m :: m in s && m.target == t)
      ensures exists m :: m in f && m.target == t
    {
      var m :| m in s && m.target == t;
      assert ToChannel(m);
    }
  }

  /** `shellChannelNames()`: the target names that start with '$'. */
  function ShellChannelNames(s: seq<Message>): seq<string> {
    Filter(TargetNames(s), IsShellChannel)
  }

  /** The shell channel names are sorted without repeats and name exactly the '$'-targets that occur. */
  lemma ShellChannelNamesExact(s: seq<Message>)
    ensures StrictlySorted(ShellChannelNames(s))
    ensures forall t :: t in ShellChannelNames(s) <==> IsShellChannel(t) && exists m :: m in s && m.target == t
  {
    TargetNamesExact(s);
    FilterKeepsStrictlySorted(TargetNames(s), IsShellChannel);
  }

  // ------------------------------------------------- default shell channels

  /** `ensureDefaultShellChannels` seeds these channels, in this order. */
  const DefaultShellChannels: seq<string> := ["$dev", "$test", "$build"]

  /** What the welcome message says after the channel's name. */
  const ShellNote: string := "\nCommands will be executed in the marc project directory.\nExample: npm run dev"

  function ShellWelcome(channel: string): string {
    "Shell channel: " + channel + ShellNote
  }

  /** The welcome message of a shell channel, numbered after the messages of the list. */
  function SeedMessage(id: int, channel: string, now: int): Message {
    Message(id, "system", channel, ShellWelcome(channel), now, None, Some(Text))
  }

  /** One pass of the loop: a channel that no message targets gets its welcome message. */
  function SeedStep(s: seq<Message>, channel: string, now: int): seq<Message> {
    if channel in TargetNames(s) then s else s + [SeedMessage(|s| + 1, channel, now)]
  }

  /** One pass keeps the list in front and adds at most that channel's welcome message. */
  lemma SeedStepShape(s: seq<Message>, channel: string, now: int)
    ensures var r := SeedStep(s, channel, now);
      && s <= r && |r| <= |s| + 1
      && forall k :: |s| <= k < |r| ==> r[k].from == "system" && r[k].target == channel
  {
    if channel !in TargetNames(s) {
      var r := s + [SeedMessage(|s| + 1, channel, now)];
      assert forall k :: |s| <= k < |r| ==> k == |s| && r[k] == SeedMessage(|s| + 1, channel, now);
    }
  }

  /** The list after the loop has visited `channels`. */
  function Seeded(s: seq<Message>, channels: seq<string>, now: int): seq<Message>
    decreases |channels|
  {
    if channels == [] then s
    else SeedStep(Seeded(s, channels[..|channels| - 1], now), channels[|channels| - 1], now)
  }

  /** Seeding keeps the existing messages as they were, in front, and adds at most one
      message per channel, each a welcome message from "system". */
  lemma {:induction false} SeededKeeps(s: seq<Message>, channels: seq<string>, now: int)
    ensures var r := Seeded(s, channels, now);
      && s <= r && |r| <= |s| + |channels|
      && forall k :: |s| <= k < |r| ==> r[k].from == "system" && r[k].target in channels
    decreases |channels|
  {
    if channels != [] {
      var front := channels[..|channels| - 1];
      SeededKeeps(s, front, now);
      var p := Seeded(s, front, now);
      var r := Seeded(s, channels, now);
      var c := channels[|channels| - 1];
      SeedStepShape(p, c, now);
      forall k | |s| <= k < |r| ensures r[k].from == "system" && r[k].target in channels {
        if k < |p| {
          assert r[k] == p[k];
          assert p[k].target in front;
        } else {
          assert r[k].target == c;
        }
      }
    }
  }

  /** After seeding, every channel visited is the target of some message. */
  lemma {:induction false} SeededCovers(s: seq<Message>, channels: seq<string>, now: int)
    ensures forall c :: c in channels ==> exists m :: m in Seeded(s, channels, now) && m.target == c
    decreases |channels|
  {
    if channels != [] {
      var front := channels[..|channels| - 1];
      var c := channels[|channels| - 1];
      SeededCovers(s, front, now);
      var p := Seeded(s, front, now);
      var r := Seeded(s, channels, now);
      TargetNamesExact(p);
      assert p <= r;
      forall x | x in channels ensures exists m :: m in r && m.target == x {
        if x == c {
          if c !in TargetNames(p) {
            assert r[|p|].target == c;
          }
        } else {
          assert x in front;
          var m :| m in p && m.target == x;
          assert m in r;
        }
      }
    }
  }

  /** Seeding channels that all occur already changes nothing. */
  lemma {:induction false} SeededPresent(s: seq<Message>, channels: seq<string>, now: int)
    requires forall c :: c in channels ==> exists m :: m in s && m.target == c
    ensures Seeded(s, channels, now) == s
    decreases |channels|
  {
    if channels != [] {
      var front := channels[..|channels| - 1];
      assert forall c :: c in front ==> c in channels;
      SeededPresent(s, front, now);
      TargetNamesExact(s);
      assert channels[|channels| - 1] in channels;
    }
  }

  /** Seeding an already-seeded list changes nothing. */
  lemma SeededTwice(s: seq<Message>, channels: seq<string>, now: int, later: int)
    ensures var r := Seeded(s, channels, now);
      Seeded(r, channels, later) == r
  {
    SeededCovers(s, channels, now);
    SeededPresent(Seeded(s, channels, now), channels, later);
  }

  /** The loop of `ensureDefaultShellChannels` over `channels`. */
  method SeedChannels(s: seq<Message>, channels: seq<string>, now: int) returns (r: seq<Message>)
    ensures r == Seeded(s, channels, now)
  {
    r := s;
    var i := 0;
    while i < |channels|
      invariant 0 <= i <= |channels|
      invariant r == Seeded(s, channels[..i], now)
    {
      var channel := channels[i];
      assert channels[..i + 1][..i] == channels[..i];
      if channel !in TargetNames(r) {
        r := r + [SeedMessage(|r| + 1, channel, now)];
      }
      i := i + 1;
    }
    assert channels[..i] == channels;
  }

  // ------------------------------------------------------------- upsert

  /** The index of the first message with this id, or -1 (`findIndex`). */
  function IndexOfId(s: seq<Message>, id: int): (r: int)
    ensures -1 <= r < |s|
    ensures r == -1 <==> forall k :: 0 <= k < |s| ==> s[k].id != id
    ensures r >= 0 ==> s[r].id == id && forall k :: 0 <= k < r ==> s[k].id != id
  {
    if s == [] then -1
    else if s[0].id == id then 0
    else
      var k := IndexOfId(s[1..], id);
      if k == -1 then -1 else k + 1
  }

  /** The `'message'` event: the first message with the same id is replaced, or the message
      is appended. */
  function Upserted(s: seq<Message>, m: Message): seq<Message> {
    var i := IndexOfId(s, m.id);
    if i >= 0 then s[i := m] else s + [m]
  }

  /** A streamed message with a known id takes the place of the first message with that id
      and nothing else changes; with a new id it is appended. Either way it is in the list. */
  lemma UpsertedShape(s: seq<Message>, m: Message)
    ensures var r := Upserted(s, m);
      && ((exists k :: 0 <= k < |s| && s[k].id == m.id) ==>
            var i := IndexOfId(s, m.id);
            |r| == |s| && r[i] == m && (forall k :: 0 <= k < |s| && k != i ==> r[k] == s[k]))
      && ((forall k :: 0 <= k < |s| ==> s[k].id != m.id) ==> r == s + [m])
      && m in r
  {
    var r := Upserted(s, m);
    var i := IndexOfId(s, m.id);
    if i >= 0 {
      assert r[i] == m;
    } else {
      assert r[|s|] == m;
    }
  }

  /** The first index with an id is the one before which no message has it. */
  lemma IndexOfIdIs(s: seq<Message>, id: int, i: int)
    requires 0 <= i < |s| && s[i].id == id
    requires forall k :: 0 <= k < i ==> s[k].id != id
    ensures IndexOfId(s, id) == i
  {
  }

  /** Upserting the same message twice is upserting it once. */
  lemma UpsertedIdempotent(s: seq<Message>, m: Message)
    ensures Upserted(Upserted(s, m), m) == Upserted(s, m)
  {
    var r := Upserted(s, m);
    var i := IndexOfId(s, m.id);
    if i >= 0 {
      assert forall k :: 0 <= k < i ==> r[k] == s[k];
      IndexOfIdIs(r, m.id, i);
    } else {
      assert forall k :: 0 <= k < |s| ==> r[k] == s[k];
      IndexOfIdIs(r, m.id, |s|);
    }
  }

  // ------------------------------------------------------------- colours

  /** `HUE_PALETTE`. */
  const HuePalette: seq<nat> := [210, 340, 120, 30, 270, 180, 60, 300, 150, 0]

  /** One step of the hash loop: `((hash << 5) - hash + code) | 0`, with `hash << 5` taken
      on the 32-bit value. */
  function HashStep(hash: int, c: char): int {
    Int32(Int32(hash * 32) - hash + c as int)
  }

  /** The hash of a name, as the loop leaves it after its last character. */
  function NameHash(s: string): (r: int)
    ensures -TwoTo31 <= r < TwoTo31
  {
    if s == [] then 0 else HashStep(NameHash(s[..|s| - 1]), s[|s| - 1])
  }

  function Abs(x: int): nat {
    if x < 0 then -x else x
  }

  function Hsl(hue: nat): string {
    "hsl(" + NatToString(hue) + ", 70%, 65%)"
  }

  /** The colour computed for a name that is not cached. */
  function ColorOf(name: string): string {
    Hsl(HuePalette[Abs(NameHash(name)) % |HuePalette|])
  }

  /** Every colour is one of the palette's ten. */
  lemma ColorInPalette(name: string)
    ensures exists k :: 0 <= k < |HuePalette| && ColorOf(name) == Hsl(HuePalette[k])
  {
    var k := Abs(NameHash(name)) % |HuePalette|;
    assert ColorOf(name) == Hsl(HuePalette[k]);
  }

  /** Colours are never the empty string, so a cached colour counts as present. */
  lemma ColorNonEmpty(name: string)
    ensures ColorOf(name) != []
  {
    assert ColorOf(name)[0] == 'h';
  }

  // -------------------------------------------------------------- display name

  /** `name.trim() || 'human'`. */
  function ChosenName(name: string): string {
    var t := Trim(name);
    if t == [] then "human" else t
  }

  /** The chosen name is the trimmed name, or "human" exactly when nothing but white space
      was typed; it never starts or ends with white space. */
  lemma ChosenNameRule(name: string)
    ensures var r := ChosenName(name);
      && r != []
      && ((forall i :: 0 <= i < |name| ==> IsJsSpace(name[i])) ==> r == "human")
      && (!(forall i :: 0 <= i < |name| ==> IsJsSpace(name[i])) ==> r == Trim(name))
      && !IsJsSpace(r[0]) && !IsJsSpace(r[|r| - 1])
  {
    TrimEmpty(name);
    if Trim(name) == [] {
      assert ChosenName(name) == "human";
      assert !IsJsSpace('h') && !IsJsSpace('n');
    }
  }

  // ------------------------------------------------------------------ state

  /** The module-level state of the client: `messages`, `mcpAgents`, the colour cache
      `AGENT_COLORS` and `settings.agent`. */
  class State {
    var messages: seq<Message>
    var mcpAgents: seq<McpAgent>
    var agentColors: map<string, string>
    var agent: string

    /** Every cached colour is the colour computed for its name. */
    predicate Valid()
      reads this
    {
      forall a :: a in agentColors ==> agentColors[a] == ColorOf(a)
    }

    /** The state at start-up: no messages, no agents, an empty cache, and the stored agent
        name or "human". */
    constructor (stored: Option<string>)
      ensures Valid()
      ensures messages == [] && mcpAgents == [] && agentColors == map[]
      ensures agent == stored.GetOr("human")
    {
      messages := [];
      mcpAgents := [];
      agentColors := map[];
      agent := stored.GetOr("human");
    }

    /** `ensureDefaultShellChannels`, with one clock reading `now` for every welcome message. */
    method EnsureDefaultShellChannels(now: int)
      modifies this`messages
      ensures messages == Seeded(old(messages), DefaultShellChannels, now)
    {
      messages := SeedChannels(messages, DefaultShellChannels, now);
    }

    /** The event handler of `subscribeAll`: a snapshot replaces the list, a single message
        is upserted by id, an agent list replaces the agents, and the other events leave
        this state alone. */
    method HandleEvent(ev: StreamEvent)
      modifies this`messages, this`mcpAgents
      ensures ev.MessagesEvent? ==> messages == ev.messages && mcpAgents == old(mcpAgents)
      ensures ev.MessageEvent? ==> messages == Upserted(old(messages), ev.message) && mcpAgents == old(mcpAgents)
      ensures ev.AgentsEvent? ==> mcpAgents == ev.agents && messages == old(messages)
      ensures !ev.MessagesEvent? && !ev.MessageEvent? && !ev.AgentsEvent? ==>
        messages == old(messages) && mcpAgents == old(mcpAgents)
    {
      match ev {
        case MessagesEvent(data) =>
          messages := data;
        case MessageEvent(m) =>
          var idx := IndexOfId(messages, m.id);
          if idx >= 0 {
            messages := messages[idx := m];
          } else {
            messages := messages + [m];
          }
        case AgentsEvent(data) =>
          mcpAgents := data;
        case TopicEvent(_, _) =>
        case BriefingEvent(_) =>
        case ChannelDeletedEvent(_) =>
      }
    }

    /** `agentColor`: the cached colour of the name, or the colour computed from its hash,
        which is then cached. */
    method AgentColor(name: string) returns (color: string)
      requires Valid()
      modifies this`agentColors
      ensures Valid()
      ensures color == ColorOf(name)
      ensures old(name in agentColors && agentColors[name] != []) ==> color == old(agentColors[name])
      ensures agentColors == old(agentColors)[name := color]
    {
      if name in agentColors && agentColors[name] != [] {
        color := agentColors[name];
        MapUpdateSame(agentColors, name);
        return;
      }
      var hash := 0;
      var i := 0;
      while i < |name|
        invariant 0 <= i <= |name|
        invariant hash == NameHash(name[..i])
      {
        assert name[..i + 1][..i] == name[..i];
        hash := HashStep(hash, name[i]);
        i := i + 1;
      }
      assert name[..i] == name;
      var hue := HuePalette[Abs(hash) % |HuePalette|];
      color := Hsl(hue);
      agentColors := agentColors[name := color];
    }

    /** `setAgentName`: the chosen name becomes the agent's name. */
    method SetAgentName(name: string)
      modifies this`agent
      ensures agent == ChosenName(name)
    {
      var trimmed := Trim(name);
      if trimmed == [] {
        trimmed := "human";
      }
      agent := trimmed;
    }
  }
}
