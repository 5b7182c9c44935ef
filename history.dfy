/** The sidebar history list of the chat page (`renderHistoryList`): one entry
    per character with its latest message, ordered by recency, then narrowed to
    the characters whose lower-cased name or preview contains the search keyword. */
module History {
  import opened Optional
  import opened Strings
  import opened TimeLabels
  import opened Roster

  const EmptyPreview: string := "暂无对话"

  /** `{ char, lastMsg, lastTs }` of one character. */
  datatype Entry = Entry(character: Character, last: Option<Message>, lastTs: int)

  /** What one row shows: the preview text and the relative time label. */
  datatype Item = Item(characterId: int, preview: string, timeLabel: string)

  /** `conversations[char.id] || []`. */
  function ConversationOf(convs: map<int, seq<Message>>, id: int): seq<Message> {
    if id in convs then convs[id] else []
  }

  /** One entry: the last message, and its timestamp, else the time estimated from
      `lastActive`, else 0. */
  function EntryOf(c: Character, convs: map<int, seq<Message>>, now: int): (e: Entry)
    ensures e.character == c
    ensures e.last.None? <==> ConversationOf(convs, c.id) == []
    ensures e.last.Some? ==>
      (e.last.value == ConversationOf(convs, c.id)[|ConversationOf(convs, c.id)| - 1] && e.lastTs == e.last.value.timestamp)
    ensures e.last.None? ==> e.lastTs == EstimateTimestamp(c.lastActive, now).GetOr(0)
  {
    var msgs := ConversationOf(convs, c.id);
    if msgs == [] then Entry(c, None, EstimateTimestamp(c.lastActive, now).GetOr(0))
    else
      var m := msgs[|msgs| - 1];
      Entry(c, Some(m), m.timestamp)
  }

  /** `characters.map(...)`: one entry per character, in roster order. */
  function Entries(cs: seq<Character>, convs: map<int, seq<Message>>, now: int): (es: seq<Entry>)
    ensures |es| == |cs|
    ensures forall k :: 0 <= k < |cs| ==> es[k] == EntryOf(cs[k], convs, now)
  {
    seq(|cs|, k requires 0 <= k < |cs| => EntryOf(cs[k], convs, now))
  }

  /** The preview text: the last message, or `暂无对话` for an empty conversation. */
  function Preview(e: Entry): string {
    match e.last
    case Some(m) => m.text
    case None => EmptyPreview
  }

  /** The search keyword: the trimmed, lower-cased search box value. */
  function Keyword(search: string): string {
    ToLower(Trim(search))
  }

  /** The filter of the history list: no keyword keeps everything. */
  predicate Matches(e: Entry, keyword: string) {
    keyword == [] || Contains(ToLower(e.character.name), keyword) || Contains(ToLower(Preview(e)), keyword)
  }

  ghost predicate SortedByRecency(es: seq<Entry>) {
    forall i, j :: 0 <= i < j < |es| ==> es[i].lastTs >= es[j].lastTs
  }

  /** Place `e` in front of the first entry that is not more recent (stable). */
  function Insert(e: Entry, es: seq<Entry>): seq<Entry> {
    if es == [] || es[0].lastTs <= e.lastTs then [e] + es
    else [es[0]] + Insert(e, es[1..])
  }

  lemma {:induction false} InsertPermutes(e: Entry, es: seq<Entry>)
    ensures multiset(Insert(e, es)) == multiset(es) + multiset{e}
  {
    if es != [] && es[0].lastTs > e.lastTs {
      InsertPermutes(e, es[1..]);
      assert es == [es[0]] + es[1..];
    }
  }

  lemma {:induction false} InsertSorted(e: Entry, es: seq<Entry>)
    requires SortedByRecency(es)
    ensures SortedByRecency(Insert(e, es))
  {
    if es != [] && es[0].lastTs > e.lastTs {
      var tail := Insert(e, es[1..]);
      InsertSorted(e, es[1..]);
      InsertPermutes(e, es[1..]);
      forall j | 0 <= j < |tail| ensures es[0].lastTs >= tail[j].lastTs {
        assert tail[j] in multiset(tail);
        assert tail[j] == e || tail[j] in multiset(es[1..]);
      }
    }
  }

  /** `.sort((a, b) => b.lastTs - a.lastTs)`: most recent first, a permutation of the
      entries. */
  function SortByRecency(es: seq<Entry>): (r: seq<Entry>)
    ensures SortedByRecency(r)
    ensures multiset(r) == multiset(es)
  {
    if es == [] then []
    else
      var rest := SortByRecency(es[1..]);
      InsertSorted(es[0], rest);
      InsertPermutes(es[0], rest);
      assert es == [es[0]] + es[1..];
      Insert(es[0], rest)
  }

  /** The entries whose last-activity timestamp is `t`, in order. */
  function WithTimestamp(es: seq<Entry>, t: int): seq<Entry> {
    if es == [] then []
    else if es[0].lastTs == t then [es[0]] + WithTimestamp(es[1..], t)
    else WithTimestamp(es[1..], t)
  }

  lemma {:induction false} InsertWithTimestamp(e: Entry, es: seq<Entry>, t: int)
    ensures WithTimestamp(Insert(e, es), t) == if e.lastTs == t then [e] + WithTimestamp(es, t) else WithTimestamp(es, t)
  {
    if es != [] && es[0].lastTs > e.lastTs {
      InsertWithTimestamp(e, es[1..], t);
      assert Insert(e, es)[1..] == Insert(e, es[1..]);
    } else {
      assert ([e] + es)[1..] == es;
    }
  }

  /** The sort is stable, as `Array.prototype.sort` is: entries with equal timestamps
      keep their roster order. */
  lemma {:induction false} SortStable(es: seq<Entry>, t: int)
    ensures WithTimestamp(SortByRecency(es), t) == WithTimestamp(es, t)
  {
    if es != [] {
      SortStable(es[1..], t);
      InsertWithTimestamp(es[0], SortByRecency(es[1..]), t);
    }
  }

  /** The rows that survive the keyword, in order. */
  function KeepMatching(es: seq<Entry>, keyword: string): seq<Entry> {
    if es == [] then []
    else if Matches(es[0], keyword) then [es[0]] + KeepMatching(es[1..], keyword)
    else KeepMatching(es[1..], keyword)
  }

  /** Filtering keeps only matching entries. */
  lemma {:induction false} KeepMatchingOnlyMatches(es: seq<Entry>, keyword: string)
    ensures forall e :: e in multiset(KeepMatching(es, keyword)) ==> Matches(e, keyword)
  {
    if es != [] {
      KeepMatchingOnlyMatches(es[1..], keyword);
    }
  }

  /** Filtering keeps every matching entry, as often as it occurs. */
  lemma {:induction false} KeepMatchingCounts(es: seq<Entry>, keyword: string, e: Entry)
    requires Matches(e, keyword)
    ensures multiset(KeepMatching(es, keyword))[e] == multiset(es)[e]
  {
    if es != [] {
      KeepMatchingCounts(es[1..], keyword, e);
      assert es == [es[0]] + es[1..];
    }
  }

  /** Filtering keeps a recency order intact. */
  lemma {:induction false} KeepMatchingSorted(es: seq<Entry>, keyword: string)
    requires SortedByRecency(es)
    ensures SortedByRecency(KeepMatching(es, keyword))
  {
    if es != [] {
      KeepMatchingSorted(es[1..], keyword);
      if Matches(es[0], keyword) {
        var rest := KeepMatching(es[1..], keyword);
        KeepMatchingSubset(es[1..], keyword);
        forall j | 0 <= j < |rest| ensures es[0].lastTs >= rest[j].lastTs {
          assert rest[j] in multiset(rest);
          assert rest[j] in multiset(es[1..]);
        }
      }
    }
  }

  lemma {:induction false} KeepMatchingSubset(es: seq<Entry>, keyword: string)
    ensures multiset(KeepMatching(es, keyword)) <= multiset(es)
  {
    if es != [] {
      KeepMatchingSubset(es[1..], keyword);
      assert es == [es[0]] + es[1..];
    }
  }

  /** No keyword: every entry stays. */
  lemma {:induction false} KeepMatchingEmpty(es: seq<Entry>)
    ensures KeepMatching(es, []) == es
  {
    if es != [] {
      KeepMatchingEmpty(es[1..]);
    }
  }

  /** Keeping one timestamp and keeping the keyword's matches commute. */
  lemma {:induction false} FiltersCommute(es: seq<Entry>, keyword: string, t: int)
    ensures WithTimestamp(KeepMatching(es, keyword), t) == KeepMatching(WithTimestamp(es, t), keyword)
  {
    if es != [] {
      FiltersCommute(es[1..], keyword, t);
      assert ([es[0]] + KeepMatching(es[1..], keyword))[1..] == KeepMatching(es[1..], keyword);
      assert ([es[0]] + WithTimestamp(es[1..], t))[1..] == WithTimestamp(es[1..], t);
    }
  }

  /** The entries the history list shows, in display order. */
  function Shown(cs: seq<Character>, convs: map<int, seq<Message>>, search: string, now: int): seq<Entry> {
    KeepMatching(SortByRecency(Entries(cs, convs, now)), Keyword(search))
  }

  /** The row of an entry; a zero timestamp shows no time label. */
  function ItemOf(e: Entry, now: int, dateLabel: int -> string): Item {
    Item(e.character.id, Preview(e), if e.lastTs != 0 then FormatRelativeTime(now, e.lastTs, dateLabel) else [])
  }

  /** The rows `renderHistoryList` appends, in order. */
  function HistoryList(cs: seq<Character>, convs: map<int, seq<Message>>, search: string, now: int,
                       dateLabel: int -> string): (items: seq<Item>)
    ensures |items| == |Shown(cs, convs, search, now)|
    ensures forall k :: 0 <= k < |items| ==> items[k] == ItemOf(Shown(cs, convs, search, now)[k], now, dateLabel)
  {
    var es := Shown(cs, convs, search, now);
    seq(|es|, k requires 0 <= k < |es| => ItemOf(es[k], now, dateLabel))
  }

  /** The history list is ordered by recency; it shows exactly the characters' entries
      that match the keyword, each as many times as it occurs in the roster; and a blank
      search shows every character. */
  lemma ShownSpec(cs: seq<Character>, convs: map<int, seq<Message>>, search: string, now: int)
    ensures SortedByRecency(Shown(cs, convs, search, now))
    ensures forall e :: e in multiset(Shown(cs, convs, search, now)) ==>
      e in multiset(Entries(cs, convs, now)) && Matches(e, Keyword(search))
    ensures forall e :: Matches(e, Keyword(search)) ==>
      multiset(Shown(cs, convs, search, now))[e] == multiset(Entries(cs, convs, now))[e]
    ensures Trim(search) == [] ==> multiset(Shown(cs, convs, search, now)) == multiset(Entries(cs, convs, now))
    ensures forall t ::
      WithTimestamp(Shown(cs, convs, search, now), t) == KeepMatching(WithTimestamp(Entries(cs, convs, now), t), Keyword(search))
  {
    var es := Entries(cs, convs, now);
    var sorted := SortByRecency(es);
    KeepMatchingOnlyMatches(sorted, Keyword(search));
    KeepMatchingSorted(sorted, Keyword(search));
    KeepMatchingSubset(sorted, Keyword(search));
    forall e | Matches(e, Keyword(search))
      ensures multiset(Shown(cs, convs, search, now))[e] == multiset(es)[e]
    {
      KeepMatchingCounts(sorted, Keyword(search), e);
    }
    if Trim(search) == [] {
      KeepMatchingEmpty(sorted);
    }
    forall t ensures WithTimestamp(Shown(cs, convs, search, now), t) == KeepMatching(WithTimestamp(es, t), Keyword(search)) {
      FiltersCommute(sorted, Keyword(search), t);
      SortStable(es, t);
    }
  }

  /** A character whose conversation is missing or empty is previewed as `暂无对话`;
      otherwise its preview is its last message's text. */
  lemma PreviewOfEntry(c: Character, convs: map<int, seq<Message>>, now: int)
    ensures ConversationOf(convs, c.id) == [] ==> Preview(EntryOf(c, convs, now)) == EmptyPreview
    ensures ConversationOf(convs, c.id) != [] ==>
      Preview(EntryOf(c, convs, now)) == ConversationOf(convs, c.id)[|ConversationOf(convs, c.id)| - 1].text
  {
  }
}
