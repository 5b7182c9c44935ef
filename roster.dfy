/** The chat page's roster and conversation store: the module-level
    `characters` list, the `conversations` dictionary keyed by character id,
    the `currentCharacter` and the `editingCharacterId` of the edit form,
    and the operations that change them. */
module Roster {
  import opened Optional
  import opened Strings
  import opened TimeLabels

  datatype Character = Character(
    id: int,
    name: string,
    icon: string,
    description: string,
    personality: string,
    createdAt: string,
    lastActive: string,
    conversationCount: nat)

  /** A chat message; `type === 'user'` is `UserMessage?`. The clock text shown
      beside a message is a locale rendering of `timestamp` and is not kept. */
  datatype Message =
    | UserMessage(text: string, timestamp: int)
    | AiMessage(author: string, text: string, timestamp: int)

  /** The four fields of the character form. */
  datatype Form = Form(name: string, icon: string, description: string, personality: string)

  /** What the statistics panel shows; `mostActive == None` is the `无` case. */
  datatype Stats = Stats(totalCharacters: nat, totalConversations: nat, mostActive: Option<Character>)

  const GreetingPrefix: string := "你好！我是"
  const GreetingSuffix: string := "，很高兴与你交流。"
  /** Greetings without an estimable time are spaced five minutes apart by roster position. */
  const GreetingSpacing: int := 5 * 60 * 1000
  const GenericReply: string := "这是一个很好的问题，让我为你分析一下。"

  /** The canned replies of `generateAIResponse`, by character name. */
  function CannedReplies(name: string): (replies: seq<string>)
    ensures |replies| >= 1
    ensures replies == [GenericReply] <==> name !in {"智慧导师", "创意助手", "商业顾问"}
  {
    if name == "智慧导师" then
      ["这是一个很有趣的问题，让我来为你详细解答。",
       "从我的经验来看，这个问题有几个关键点需要考虑。",
       "你提出了一个很好的观点，我建议你可以从以下几个方面深入思考。"]
    else if name == "创意助手" then
      ["哇！这个想法太有创意了！我有一些更有趣的建议给你。",
       "让我发挥一下想象力，我觉得可以这样设计...",
       "这个概念很棒！我们可以加入更多创新的元素。"]
    else if name == "商业顾问" then
      ["从商业角度分析，这个方案有几个优势和需要注意的风险。",
       "根据市场调研数据，我建议采用以下策略来优化这个项目。",
       "这个投资机会看起来很有潜力，但我们需要仔细评估ROI。"]
    else [GenericReply]
  }

  ghost predicate DistinctIds(cs: seq<Character>) {
    forall i, j :: 0 <= i < j < |cs| ==> cs[i].id != cs[j].id
  }

  /** `cs.findIndex(c => c.id === id)`: the first position carrying `id`. */
  function Find(cs: seq<Character>, id: int): (r: Option<nat>)
    ensures r.Some? ==> r.value < |cs| && cs[r.value].id == id
    ensures r.Some? ==> forall k :: 0 <= k < r.value ==> cs[k].id != id
    ensures r.None? ==> forall k :: 0 <= k < |cs| ==> cs[k].id != id
  {
    if cs == [] then None
    else if cs[0].id == id then Some(0)
    else match Find(cs[1..], id)
      case None => None
      case Some(k) => Some(k + 1)
  }

  /** `cs.filter(c => c.id !== id)`. */
  function RemoveId(cs: seq<Character>, id: int): (r: seq<Character>)
    ensures |r| <= |cs|
    ensures forall k :: 0 <= k < |r| ==> r[k].id != id
  {
    if cs == [] then []
    else if cs[0].id == id then RemoveId(cs[1..], id)
    else [cs[0]] + RemoveId(cs[1..], id)
  }

  /** Removal keeps exactly the characters with another id. */
  lemma {:induction false} RemoveIdMembers(cs: seq<Character>, id: int)
    ensures forall c :: c in RemoveId(cs, id) <==> c in cs && c.id != id
  {
    if cs != [] {
      RemoveIdMembers(cs[1..], id);
      assert cs == [cs[0]] + cs[1..];
    }
  }

  /** Removal works piecewise, so the survivors keep their relative order. */
  lemma {:induction false} RemoveIdConcat(a: seq<Character>, b: seq<Character>, id: int)
    ensures RemoveId(a + b, id) == RemoveId(a, id) + RemoveId(b, id)
  {
    if a != [] {
      assert (a + b)[1..] == a[1..] + b;
      RemoveIdConcat(a[1..], b, id);
    } else {
      assert a + b == b;
    }
  }

  /** Removing an id from a roster with distinct ids leaves distinct ids. */
  lemma {:induction false} RemoveIdDistinct(cs: seq<Character>, id: int)
    requires DistinctIds(cs)
    ensures DistinctIds(RemoveId(cs, id))
  {
    if cs != [] {
      RemoveIdDistinct(cs[1..], id);
      RemoveIdMembers(cs[1..], id);
      if cs[0].id != id {
        var r := RemoveId(cs[1..], id);
        forall j | 0 <= j < |r| ensures r[j].id != cs[0].id {
          assert r[j] in cs[1..];
        }
      }
    }
  }

  /** The edit form overwrites the four form fields and nothing else (`Object.assign`). */
  function Edited(c: Character, f: Form): (e: Character)
    ensures e.id == c.id && e.createdAt == c.createdAt && e.lastActive == c.lastActive
    ensures e.conversationCount == c.conversationCount
    ensures e.name == f.name && e.icon == f.icon && e.description == f.description && e.personality == f.personality
  {
    c.(name := f.name, icon := f.icon, description := f.description, personality := f.personality)
  }

  /** The character the add form creates. */
  function NewCharacter(id: int, f: Form, today: string): Character {
    Character(id, f.name, f.icon, f.description, f.personality, today, JustNowLabel, 0)
  }

  /** One activity bump of a character. */
  function Bumped(c: Character): Character {
    c.(lastActive := JustNowLabel, conversationCount := c.conversationCount + 1)
  }

  /** The roster after `bumpCurrentCharacterActivity` for the character `id`. */
  function BumpRoster(cs: seq<Character>, id: int): (r: seq<Character>)
    ensures |r| == |cs|
    ensures forall k :: 0 <= k < |cs| ==> r[k].id == cs[k].id && r[k].name == cs[k].name
  {
    match Find(cs, id)
    case None => cs
    case Some(k) => cs[k := Bumped(cs[k])]
  }

  /** A bump marks the first character with the id as active just now and adds exactly
      one to its count; every other character, and the length, stay as they were. */
  lemma BumpRosterEffect(cs: seq<Character>, id: int)
    ensures |BumpRoster(cs, id)| == |cs|
    ensures forall k :: 0 <= k < |cs| && Find(cs, id) != Some(k) ==> BumpRoster(cs, id)[k] == cs[k]
    ensures Find(cs, id).Some? ==>
      var k := Find(cs, id).value;
      var b := BumpRoster(cs, id)[k];
      b.lastActive == JustNowLabel && b.conversationCount == cs[k].conversationCount + 1
      && b == cs[k].(lastActive := b.lastActive, conversationCount := b.conversationCount)
    ensures Find(cs, id).None? ==> BumpRoster(cs, id) == cs
  {
  }

  /** Number of messages with `type === 'user'`. */
  function UserCount(msgs: seq<Message>): (n: nat)
    ensures n <= |msgs|
  {
    if msgs == [] then 0
    else UserCount(msgs[..|msgs| - 1]) + (if msgs[|msgs| - 1].UserMessage? then 1 else 0)
  }

  /** Appending one message adds one to the count exactly when it is a user message. */
  lemma UserCountAppend(msgs: seq<Message>, m: Message)
    ensures UserCount(msgs + [m]) == UserCount(msgs) + (if m.UserMessage? then 1 else 0)
  {
    assert (msgs + [m])[..|msgs|] == msgs;
  }

  /** A non-empty set has an element to pick. */
  lemma NonEmptyHasElement(ks: set<int>)
    requires ks != {}
    ensures exists k :: k in ks
  {
    if forall k :: k !in ks {
      assert false;
    }
  }

  /** The user messages of the conversations whose keys are in `ks`, summed. */
  ghost function SumUsers(m: map<int, seq<Message>>, ks: set<int>): nat
    requires ks <= m.Keys
    decreases ks
  {
    if ks == {} then 0
    else
      NonEmptyHasElement(ks);
      var k :| k in ks;
      UserCount(m[k]) + SumUsers(m, ks - {k})
  }

  /** The sum over `Object.values(conversations)`. */
  ghost function UserTotal(m: map<int, seq<Message>>): nat {
    SumUsers(m, m.Keys)
  }

  /** The sum does not depend on the order the keys are visited in: any key can go first. */
  lemma {:induction false} SumUsersRemove(m: map<int, seq<Message>>, ks: set<int>, k: int)
    requires ks <= m.Keys && k in ks
    ensures SumUsers(m, ks) == UserCount(m[k]) + SumUsers(m, ks - {k})
    decreases ks
  {
    var j :| j in ks && SumUsers(m, ks) == UserCount(m[j]) + SumUsers(m, ks - {j});
    if j != k {
      SumUsersRemove(m, ks - {j}, k);
      SumUsersRemove(m, ks - {k}, j);
      assert ks - {j} - {k} == ks - {k} - {j};
    }
  }

  /** Conversations that agree on `ks` have the same sum over `ks`. */
  lemma {:induction false} SumUsersAgree(m1: map<int, seq<Message>>, m2: map<int, seq<Message>>, ks: set<int>)
    requires ks <= m1.Keys && ks <= m2.Keys
    requires forall k :: k in ks ==> m1[k] == m2[k]
    ensures SumUsers(m1, ks) == SumUsers(m2, ks)
    decreases ks
  {
    if ks != {} {
      NonEmptyHasElement(ks);
      var k :| k in ks;
      SumUsersRemove(m1, ks, k);
      SumUsersRemove(m2, ks, k);
      SumUsersAgree(m1, m2, ks - {k});
    }
  }

  /** Replacing one conversation changes the total by the difference of its user counts;
      a key that was absent contributes nothing before. */
  lemma UserTotalUpdate(m: map<int, seq<Message>>, k: int, msgs: seq<Message>)
    ensures UserTotal(m[k := msgs]) + (if k in m then UserCount(m[k]) else 0) == UserTotal(m) + UserCount(msgs)
  {
    var m' := m[k := msgs];
    SumUsersRemove(m', m'.Keys, k);
    SumUsersAgree(m, m', m.Keys - {k});
    if k in m {
      SumUsersRemove(m, m.Keys, k);
      assert m'.Keys - {k} == m.Keys - {k};
    } else {
      assert m.Keys - {k} == m.Keys;
      assert m'.Keys - {k} == m.Keys;
      assert SumUsers(m', m'.Keys - {k}) == SumUsers(m, m.Keys);
    }
  }

  /** Deleting a conversation removes its user messages from the total. */
  lemma UserTotalDelete(m: map<int, seq<Message>>, k: int)
    requires k in m
    ensures UserTotal(m - {k}) + UserCount(m[k]) == UserTotal(m)
  {
    SumUsersRemove(m, m.Keys, k);
    SumUsersAgree(m, m - {k}, m.Keys - {k});
    assert (m - {k}).Keys == m.Keys - {k};
  }

  /** A sent user message adds exactly one to the statistics' conversation total;
      the canned reply that follows adds nothing. */
  lemma SendCountsOnce(m: map<int, seq<Message>>, k: int, text: string, author: string, now: int, later: int)
    requires k in m
    ensures var sent := m[k := m[k] + [UserMessage(text, now)]];
      UserTotal(sent) == UserTotal(m) + 1
      && UserTotal(sent[k := sent[k] + [AiMessage(author, text, later)]]) == UserTotal(m) + 1
  {
    var sent := m[k := m[k] + [UserMessage(text, now)]];
    UserCountAppend(m[k], UserMessage(text, now));
    UserTotalUpdate(m, k, m[k] + [UserMessage(text, now)]);
    UserCountAppend(sent[k], AiMessage(author, text, later));
    UserTotalUpdate(sent, k, sent[k] + [AiMessage(author, text, later)]);
  }

  /** The character `characters.reduce((prev, cur) => prev.conversationCount >
      cur.conversationCount ? prev : cur, characters[0])` picks: a maximal count, and
      ties go to the later character, so nothing after it reaches its count. */
  function MostActiveIndex(cs: seq<Character>): (k: nat)
    requires |cs| > 0
    ensures k < |cs|
    ensures forall j :: 0 <= j < |cs| ==> cs[j].conversationCount <= cs[k].conversationCount
    ensures forall j :: k < j < |cs| ==> cs[j].conversationCount < cs[k].conversationCount
  {
    if |cs| == 1 then 0
    else
      var p := MostActiveIndex(cs[..|cs| - 1]);
      if cs[p].conversationCount > cs[|cs| - 1].conversationCount then p else |cs| - 1
  }

  /** The greeting `initializeConversations` places in a character's conversation:
      its time is estimated from `lastActive`, else spaced back by roster position. */
  function Greeting(c: Character, index: nat, now: int): (g: Message)
    ensures g.AiMessage? && g.author == c.name
    ensures g.text == GreetingPrefix + c.name + GreetingSuffix
    ensures EstimateTimestamp(c.lastActive, now).None? ==> g.timestamp == now - index * GreetingSpacing
    ensures EstimateTimestamp(c.lastActive, now).Some? ==> g.timestamp == EstimateTimestamp(c.lastActive, now).value
  {
    AiMessage(c.name, GreetingPrefix + c.name + GreetingSuffix,
              EstimateTimestamp(c.lastActive, now).GetOr(now - index * GreetingSpacing))
  }

  /** The object `currentCharacter` refers to is the roster entry with its id, while there
      is one: editing and bumping that entry change `currentCharacter` too. */
  ghost predicate CurrentAliased(cs: seq<Character>, current: Character) {
    forall k :: 0 <= k < |cs| && cs[k].id == current.id ==> cs[k] == current
  }

  class Store {
    var characters: seq<Character>
    var conversations: map<int, seq<Message>>
    var current: Character
    var editingId: Option<int>

    ghost predicate Valid()
      reads this
    {
      DistinctIds(characters) && CurrentAliased(characters, current)
    }

    /** `if (editingCharacterId)`: a set, non-zero id (JavaScript truthiness). */
    predicate EditMode()
      reads this
    {
      editingId.Some? && editingId.value != 0
    }

    /** An id the add form may use: on no roster entry and not the current character's. */
    predicate Unused(id: int)
      reads this
    {
      Find(characters, id).None? && id != current.id
    }

    /** The initial roster, with `currentCharacter = characters[0]`. */
    constructor (initial: seq<Character>)
      requires |initial| > 0 && DistinctIds(initial)
      ensures Valid()
      ensures characters == initial && current == initial[0]
      ensures conversations == map[] && editingId == None
    {
      characters := initial;
      current := initial[0];
      conversations := map[];
      editingId := None;
    }

    /** `initializeConversations`: every character's conversation becomes its greeting. */
    method InitializeConversations(now: int)
      requires Valid()
      modifies this`conversations
      ensures Valid()
      ensures forall k :: 0 <= k < |characters| ==>
        characters[k].id in conversations && conversations[characters[k].id] == [Greeting(characters[k], k, now)]
      ensures forall id :: id in conversations <==> id in old(conversations) || Find(characters, id).Some?
      ensures forall id :: id in old(conversations) && Find(characters, id).None? ==> conversations[id] == old(conversations[id])
    {
      var i := 0;
      while i < |characters|
        invariant 0 <= i <= |characters|
        invariant forall k :: 0 <= k < i ==>
          characters[k].id in conversations && conversations[characters[k].id] == [Greeting(characters[k], k, now)]
        invariant forall id :: id in conversations <==>
          id in old(conversations) || exists k :: 0 <= k < i && characters[k].id == id
        invariant forall id :: id in old(conversations) && (forall k :: 0 <= k < i ==> characters[k].id != id) ==>
          conversations[id] == old(conversations[id])
      {
        conversations := conversations[characters[i].id := [Greeting(characters[i], i, now)]];
        i := i + 1;
      }
      forall id | Find(characters, id).Some? ensures id in conversations {
        var k := Find(characters, id).value;
        assert characters[k].id == id;
      }
    }

    /** `selectCharacter(id)`: an unknown id changes nothing. */
    method Select(id: int)
      requires Valid()
      modifies this`current
      ensures Valid()
      ensures Find(characters, id).None? ==> current == old(current)
      ensures Find(characters, id).Some? ==> current == characters[Find(characters, id).value] && current.id == id
    {
      match Find(characters, id)
      case None =>
      case Some(k) =>
        current := characters[k];
    }

    /** `showAddCharacterModal`: the form is in add mode. */
    method BeginAdd()
      modifies this`editingId
      ensures editingId == None
    {
      editingId := None;
    }

    /** `editCharacter(id)`: edit mode for a known id; an unknown id changes nothing. */
    method BeginEdit(id: int)
      modifies this`editingId
      ensures editingId == if Find(characters, id).Some? then Some(id) else old(editingId)
    {
      if Find(characters, id).Some? {
        editingId := Some(id);
      }
    }

    /** The form's submit handler. In edit mode only the four form fields of the edited
        character change (a vanished character means no change); in add mode exactly one
        fresh character is appended with an empty conversation. `newId` is the clock
        value `Date.now()` and `today` the ISO date the source derives from it. */
    method Submit(form: Form, newId: int, today: string)
      requires Valid()
      requires !EditMode() ==> Unused(newId)
      modifies this`characters, this`conversations, this`current
      ensures Valid()
      ensures old(EditMode()) ==> conversations == old(conversations) && |characters| == |old(characters)|
      ensures old(EditMode()) ==>
        match Find(old(characters), old(editingId).value)
        case None => characters == old(characters) && current == old(current)
        case Some(k) =>
          characters == old(characters)[k := Edited(old(characters)[k], form)]
          && current == (if old(current).id == old(editingId).value then Edited(old(current), form) else old(current))
      ensures !old(EditMode()) ==>
        characters == old(characters) + [NewCharacter(newId, form, today)]
        && conversations == old(conversations)[newId := []]
        && current == old(current)
    {
      if EditMode() {
        match Find(characters, editingId.value)
        case None =>
        case Some(k) =>
          var edited := Edited(characters[k], form);
          characters := characters[k := edited];
          if current.id == editingId.value {
            current := edited;
          }
      } else {
        characters := characters + [NewCharacter(newId, form, today)];
        conversations := conversations[newId := []];
      }
    }

    /** `deleteCharacter(id)` once confirmed: every character with the id goes, in order,
        with its conversation; the current character moves to the first remaining one
        only when it was the deleted one and someone remains. */
    method Delete(id: int)
      requires Valid()
      modifies this`characters, this`conversations, this`current
      ensures Valid()
      ensures characters == RemoveId(old(characters), id)
      ensures conversations == old(conversations) - {id}
      ensures current == if old(current).id == id && |characters| > 0 then characters[0] else old(current)
    {
      ghost var before := characters;
      characters := RemoveId(characters, id);
      conversations := conversations - {id};
      RemoveIdDistinct(before, id);
      RemoveIdMembers(before, id);
      if current.id == id && |characters| > 0 {
        current := characters[0];
      } else {
        forall k | 0 <= k < |characters| && characters[k].id == current.id ensures characters[k] == current {
          assert characters[k] in before;
        }
      }
    }

    /** `bumpCurrentCharacterActivity`. */
    method Bump()
      requires Valid()
      modifies this`characters, this`current
      ensures Valid()
      ensures characters == BumpRoster(old(characters), old(current).id)
      ensures current == if Find(old(characters), old(current).id).Some? then Bumped(old(current)) else old(current)
    {
      match Find(characters, current.id)
      case None =>
      case Some(k) =>
        characters := characters[k := Bumped(characters[k])];
        current := Bumped(current);
    }

    /** `sendMessage` up to the scheduled reply. Blank input changes nothing; so does a
        current character whose conversation is gone (the source's `push` throws). Otherwise
        exactly one user message with the trimmed text joins the current conversation, the
        other conversations stay, and the current character is bumped. The trimmed text
        is returned for the reply step. */
    method SendMessage(input: string, now: int) returns (sent: Option<string>)
      requires Valid()
      modifies this`characters, this`conversations, this`current
      ensures Valid()
      ensures sent == if Trim(input) == [] || old(current).id !in old(conversations) then None else Some(Trim(input))
      ensures sent.None? ==>
        characters == old(characters) && conversations == old(conversations) && current == old(current)
      ensures sent.Some? ==>
        conversations == old(conversations)[old(current).id := old(conversations)[old(current).id] + [UserMessage(sent.value, now)]]
        && characters == BumpRoster(old(characters), old(current).id)
        && current == (if Find(old(characters), old(current).id).Some? then Bumped(old(current)) else old(current))
    {
      var text := Trim(input);
      if text == [] || current.id !in conversations {
        return None;
      }
      conversations := conversations[current.id := conversations[current.id] + [UserMessage(text, now)]];
      Bump();
      sent := Some(text);
    }

    /** The timer callback of `sendMessage`: the reply of whoever is current when it
        fires, drawn from that character's canned replies at the random position `choice`,
        is appended and the character bumped; a missing conversation means no change. */
    method DeliverReply(choice: nat, now: int) returns (delivered: bool)
      requires Valid()
      requires choice < |CannedReplies(current.name)|
      modifies this`characters, this`conversations, this`current
      ensures Valid()
      ensures delivered == (old(current).id in old(conversations))
      ensures !delivered ==>
        characters == old(characters) && conversations == old(conversations) && current == old(current)
      ensures delivered ==>
        conversations == old(conversations)[old(current).id :=
          old(conversations)[old(current).id] + [AiMessage(old(current).name, CannedReplies(old(current).name)[choice], now)]]
        && characters == BumpRoster(old(characters), old(current).id)
        && current == (if Find(old(characters), old(current).id).Some? then Bumped(old(current)) else old(current))
    {
      var reply := AiMessage(current.name, CannedReplies(current.name)[choice], now);
      if current.id !in conversations {
        return false;
      }
      conversations := conversations[current.id := conversations[current.id] + [reply]];
      Bump();
      delivered := true;
    }

    /** `newConversation`: the current character's conversation, and only it, becomes empty. */
    method NewConversation()
      modifies this`conversations
      ensures conversations == old(conversations)[current.id := []]
    {
      conversations := conversations[current.id := []];
    }

    /** `updateStats`: the roster size, the number of user messages over all
        conversations, and the most active character. */
    method ComputeStats() returns (s: Stats)
      ensures s.totalCharacters == |characters|
      ensures s.totalConversations == UserTotal(conversations)
      ensures s.mostActive.Some? <==> |characters| > 0
      ensures s.mostActive.Some? ==> s.mostActive.value == characters[MostActiveIndex(characters)]
    {
      var remaining := conversations.Keys;
      var total := 0;
      while remaining != {}
        invariant remaining <= conversations.Keys
        invariant total + SumUsers(conversations, remaining) == UserTotal(conversations)
        decreases remaining
      {
        NonEmptyHasElement(remaining);
        var k :| k in remaining;
        SumUsersRemove(conversations, remaining, k);
        total := total + UserCount(conversations[k]);
        remaining := remaining - {k};
      }
      var most := if |characters| > 0 then Some(characters[MostActiveIndex(characters)]) else None;
      s := Stats(|characters|, total, most);
    }
  }
}
