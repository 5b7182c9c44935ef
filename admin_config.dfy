/** The rules of the admin page that decide which model and voice lists the
    front end shows: the defaults read from build-time environment values, the
    lists kept in `localStorage`, the checkbox list built from both, and the
    grouping of checked boxes when the page is saved. */
module AdminConfig {
  import opened Optional
  import opened Strings

  const LlmKey: string := "visible_llm_models"
  const AsrKey: string := "visible_asr_models"
  const TtsKey: string := "visible_tts_voices"
  const VrmKey: string := "visible_voice_models"

  /** `Object.values(KEYS)`, in declaration order. */
  const ListKeys: seq<string> := [LlmKey, AsrKey, TtsKey, VrmKey]

  predicate IsListKey(key: string) {
    key in ListKeys
  }

  /** One list per service, as `getDefaults` and `getVisible` return them. */
  datatype Lists = Lists(llm: seq<string>, asr: seq<string>, tts: seq<string>, vrm: seq<string>) {
    function Get(key: string): seq<string>
      requires IsListKey(key)
    {
      if key == LlmKey then llm else if key == AsrKey then asr else if key == TtsKey then tts else vrm
    }
  }

  /** `JSON.parse` of a text that should hold a list of strings, left abstract: `None`
      stands for a text it rejects. */
  type Decoder = string -> Option<seq<string>>

  /** A `localStorage` value at a list key. `Saved(items)` is what this page writes,
      `JSON.stringify(items)`, a non-empty text that decodes back to `items`; `Text(raw)`
      is any other text found there. */
  datatype Stored = Saved(items: seq<string>) | Text(raw: string)

  // ---------------------------------------------------------------- readEnvList

  /** `raw.split(',').map(s => s.trim()).filter(Boolean)` on the pieces. */
  function TrimmedPieces(parts: seq<string>): (r: seq<string>)
    ensures |r| <= |parts|
    ensures forall t :: t in r ==> t != [] && Trim(t) == t
  {
    if parts == [] then []
    else
      var t := Trim(parts[0]);
      TrimIdempotent(parts[0]);
      if t == [] then TrimmedPieces(parts[1..]) else [t] + TrimmedPieces(parts[1..])
  }

  /** A token comes out exactly when some piece trims to it and it is not empty. */
  lemma {:induction false} TrimmedPiecesMembers(parts: seq<string>, t: string)
    ensures t in TrimmedPieces(parts) <==> t != [] && exists p :: p in parts && Trim(p) == t
  {
    if parts != [] {
      TrimmedPiecesMembers(parts[1..], t);
      assert forall p :: p in parts <==> p == parts[0] || p in parts[1..];
    }
  }

  /** Pieces are trimmed one by one: the tokens of two runs of pieces are the tokens of
      each, in order. */
  lemma {:induction false} TrimmedPiecesConcat(a: seq<string>, b: seq<string>)
    ensures TrimmedPieces(a + b) == TrimmedPieces(a) + TrimmedPieces(b)
  {
    if a == [] {
      assert a + b == b;
    } else {
      assert (a + b)[0] == a[0];
      assert (a + b)[1..] == a[1..] + b;
      TrimmedPiecesConcat(a[1..], b);
    }
  }

  /** `import.meta.env[name] || ''`. */
  function EnvValue(env: map<string, string>, name: string): string {
    if name in env then env[name] else []
  }

  /** `readEnvList(name, fallback)`. */
  function ReadEnvList(env: map<string, string>, name: string, fallback: seq<string>, decode: Decoder): seq<string> {
    var raw := EnvValue(env, name);
    if raw == [] then fallback
    else if StartsWith(Trim(raw), "[") then decode(raw).GetOr(fallback)
    else TrimmedPieces(Split(raw, ','))
  }

  /** The cases of `readEnvList`: missing or empty gives the fallback; a value that
      starts with `[` once trimmed is decoded, a rejected text giving the fallback; any
      other value is cut at commas into trimmed, non-empty, comma-free tokens. A
      whitespace-only value is not empty, so it yields no tokens rather than the fallback. */
  lemma ReadEnvListCases(env: map<string, string>, name: string, fallback: seq<string>, decode: Decoder)
    ensures EnvValue(env, name) == [] ==> ReadEnvList(env, name, fallback, decode) == fallback
    ensures EnvValue(env, name) != [] && StartsWith(Trim(EnvValue(env, name)), "[") ==>
      ReadEnvList(env, name, fallback, decode) == decode(EnvValue(env, name)).GetOr(fallback)
    ensures EnvValue(env, name) != [] && !StartsWith(Trim(EnvValue(env, name)), "[") ==>
      ReadEnvList(env, name, fallback, decode) == TrimmedPieces(Split(EnvValue(env, name), ','))
      && Join(Split(EnvValue(env, name), ','), ',') == EnvValue(env, name)
      && (forall t :: t in ReadEnvList(env, name, fallback, decode) <==>
            t != [] && exists p :: p in Split(EnvValue(env, name), ',') && Trim(p) == t)
      && forall t :: t in ReadEnvList(env, name, fallback, decode) ==> t != [] && Trim(t) == t && ',' !in t
    ensures EnvValue(env, name) != [] && AllWhitespace(EnvValue(env, name)) ==> ReadEnvList(env, name, fallback, decode) == []
  {
    var raw := EnvValue(env, name);
    if raw != [] && !StartsWith(Trim(raw), "[") {
      TrimmedPiecesNoSeparator(Split(raw, ','));
      JoinSplit(raw, ',');
      forall t ensures t in TrimmedPieces(Split(raw, ',')) <==> t != [] && exists p :: p in Split(raw, ',') && Trim(p) == t {
        TrimmedPiecesMembers(Split(raw, ','), t);
      }
    }
    if raw != [] && AllWhitespace(raw) {
      TrimEmptyIff(raw);
      AllWhitespacePieces(raw);
    }
  }

  lemma {:induction false} TrimmedPiecesNoSeparator(parts: seq<string>)
    requires forall p :: p in parts ==> ',' !in p
    ensures forall t :: t in TrimmedPieces(parts) ==> ',' !in t
  {
    if parts != [] {
      TrimmedPiecesNoSeparator(parts[1..]);
      TrimIsInfix(parts[0]);
      var i, j :| 0 <= i <= j <= |parts[0]| && Trim(parts[0]) == parts[0][i..j];
      assert forall c :: c in parts[0][i..j] ==> c in parts[0];
    }
  }

  /** A whitespace-only value splits into whitespace-only pieces, which all vanish. */
  lemma AllWhitespacePieces(raw: string)
    requires AllWhitespace(raw)
    ensures TrimmedPieces(Split(raw, ',')) == []
  {
    AllWhitespaceSplit(raw);
    BlankPiecesVanish(Split(raw, ','));
  }

  lemma {:induction false} AllWhitespaceSplit(raw: string)
    requires AllWhitespace(raw)
    ensures forall p :: p in Split(raw, ',') ==> AllWhitespace(p)
    decreases |raw|
  {
    if raw != [] {
      AllWhitespaceSplit(raw[1..]);
      var rest := Split(raw[1..], ',');
      assert rest[0] in rest;
      assert forall p :: p in rest[1..] ==> p in rest;
      assert AllWhitespace([raw[0]] + rest[0]);
    }
  }

  lemma {:induction false} BlankPiecesVanish(parts: seq<string>)
    requires forall p :: p in parts ==> AllWhitespace(p)
    ensures TrimmedPieces(parts) == []
  {
    if parts != [] {
      TrimEmptyIff(parts[0]);
      BlankPiecesVanish(parts[1..]);
    }
  }

  /** A comma-free text splits into itself. */
  lemma {:induction false} SplitWithoutSeparator(s: string, sep: char)
    requires sep !in s
    ensures Split(s, sep) == [s]
    decreases |s|
  {
    if s != [] {
      SplitWithoutSeparator(s[1..], sep);
      assert s == [s[0]] + s[1..];
    }
  }

  /** Splitting at the first separator: the piece in front, then the rest's pieces. */
  lemma {:induction false} SplitAtSeparator(a: string, b: string, sep: char)
    requires sep !in a
    ensures Split(a + [sep] + b, sep) == [a] + Split(b, sep)
    decreases |a|
  {
    if a == [] {
      assert [] + [sep] + b == [sep] + b;
      assert ([sep] + b)[1..] == b;
    } else {
      SplitAtSeparator(a[1..], b, sep);
      assert (a + [sep] + b)[1..] == a[1..] + [sep] + b;
      assert a == [a[0]] + a[1..];
    }
  }

  /** Joining comma-free pieces and splitting again gives the pieces back. */
  lemma {:induction false} SplitJoin(parts: seq<string>, sep: char)
    requires parts != []
    requires forall p :: p in parts ==> sep !in p
    ensures Split(Join(parts, sep), sep) == parts
    decreases |parts|
  {
    if |parts| == 1 {
      SplitWithoutSeparator(parts[0], sep);
    } else {
      SplitJoin(parts[1..], sep);
      assert parts[0] in parts;
      assert forall p :: p in parts[1..] ==> p in parts;
      SplitAtSeparator(parts[0], Join(parts[1..], sep), sep);
      assert parts == [parts[0]] + parts[1..];
    }
  }

  lemma {:induction false} TrimmedPiecesOfTokens(ts: seq<string>)
    requires forall t :: t in ts ==> t != [] && Trim(t) == t
    ensures TrimmedPieces(ts) == ts
  {
    if ts != [] {
      assert forall t :: t in ts[1..] ==> t in ts;
      TrimmedPiecesOfTokens(ts[1..]);
      assert ts == [ts[0]] + ts[1..];
    }
  }

  /** An environment value written as tokens joined by commas reads back as exactly
      those tokens, whatever the fallback. */
  lemma ReadEnvListRoundTrip(env: map<string, string>, name: string, ts: seq<string>, fallback: seq<string>, decode: Decoder)
    requires forall t :: t in ts ==> t != [] && Trim(t) == t && ',' !in t
    requires ts != [] && ts[0] != [] && ts[0][0] != '['
    requires EnvValue(env, name) == Join(ts, ',')
    ensures ReadEnvList(env, name, fallback, decode) == ts
  {
    var raw := Join(ts, ',');
    JoinStartsWithHead(ts, ',');
    assert ts[0] in ts;
    assert !IsWhitespace(raw[0]) by {
      assert Trim(ts[0]) == ts[0];
    }
    TrimKeepsHead(raw);
    assert !StartsWith(Trim(raw), "[") by {
      assert Trim(raw)[0] != '[';
    }
    assert ReadEnvList(env, name, fallback, decode) == TrimmedPieces(Split(raw, ','));
    SplitJoin(ts, ',');
    TrimmedPiecesOfTokens(ts);
  }

  lemma JoinStartsWithHead(parts: seq<string>, sep: char)
    requires parts != [] && parts[0] != []
    ensures Join(parts, sep) != [] && Join(parts, sep)[0] == parts[0][0]
  {
  }

  const LlmEnv: string := "VITE_LLM_MODELS"
  const AsrEnv: string := "VITE_ASR_MODELS"
  const TtsEnv: string := "VITE_TTS_VOICES"
  const VrmEnv: string := "VITE_VOICE_MODELS"

  /** `getDefaults()`: each list from its build-time variable, empty when unset. */
  function Defaults(env: map<string, string>, decode: Decoder): Lists {
    Lists(ReadEnvList(env, LlmEnv, [], decode), ReadEnvList(env, AsrEnv, [], decode),
          ReadEnvList(env, TtsEnv, [], decode), ReadEnvList(env, VrmEnv, [], decode))
  }

  /** Without any of the four variables there are no defaults at all. */
  lemma DefaultsUnset(env: map<string, string>, decode: Decoder)
    requires LlmEnv !in env && AsrEnv !in env && TtsEnv !in env && VrmEnv !in env
    ensures Defaults(env, decode) == Lists([], [], [], [])
  {
  }

  // ---------------------------------------------------------------- getVisible

  /** The `parse` helper of `getVisible` for one key. */
  function StoredList(storage: map<string, Stored>, key: string, default: seq<string>, decode: Decoder): seq<string> {
    if key !in storage then default
    else match storage[key]
      case Saved(items) => items
      case Text(raw) => if raw == [] then default else decode(raw).GetOr(default)
  }

  /** `getVisible()`: each list from storage when present and decodable, else its default. */
  function GetVisible(storage: map<string, Stored>, defaults: Lists, decode: Decoder): (v: Lists)
    ensures forall key :: IsListKey(key) ==> v.Get(key) == StoredList(storage, key, defaults.Get(key), decode)
  {
    Lists(StoredList(storage, LlmKey, defaults.llm, decode),
          StoredList(storage, AsrKey, defaults.asr, decode),
          StoredList(storage, TtsKey, defaults.tts, decode),
          StoredList(storage, VrmKey, defaults.vrm, decode))
  }

  /** The lists a key shows: what was saved there, even an empty list; the decoded text
      found there; or the default when nothing usable is stored. */
  lemma StoredListCases(storage: map<string, Stored>, key: string, default: seq<string>, decode: Decoder)
    ensures key !in storage ==> StoredList(storage, key, default, decode) == default
    ensures key in storage && storage[key].Saved? ==> StoredList(storage, key, default, decode) == storage[key].items
    ensures key in storage && storage[key].Text? && storage[key].raw != [] && decode(storage[key].raw).Some? ==>
      StoredList(storage, key, default, decode) == decode(storage[key].raw).value
    ensures key in storage && storage[key].Text? && (storage[key].raw == [] || decode(storage[key].raw).None?) ==>
      StoredList(storage, key, default, decode) == default
  {
  }

  // ---------------------------------------------------------------- renderList

  ghost predicate NoDuplicates<T>(s: seq<T>) {
    forall i, j :: 0 <= i < j < |s| ==> s[i] != s[j]
  }

  /** The elements of `s` not in `seen`, each once, in order of first occurrence:
      adding the elements of `s` to a `Set` that already holds `seen`. */
  function DedupAfter(s: seq<string>, seen: set<string>): seq<string> {
    if s == [] then []
    else if s[0] in seen then DedupAfter(s[1..], seen)
    else [s[0]] + DedupAfter(s[1..], seen + {s[0]})
  }

  /** `[...new Set(s)]`. */
  function Dedup(s: seq<string>): seq<string> {
    DedupAfter(s, {})
  }

  lemma {:induction false} DedupAfterMembers(s: seq<string>, seen: set<string>)
    ensures forall x :: x in DedupAfter(s, seen) <==> x in s && x !in seen
  {
    if s != [] {
      DedupAfterMembers(s[1..], seen);
      DedupAfterMembers(s[1..], seen + {s[0]});
    }
  }

  lemma {:induction false} DedupAfterNoDuplicates(s: seq<string>, seen: set<string>)
    ensures NoDuplicates(DedupAfter(s, seen))
  {
    if s != [] {
      DedupAfterNoDuplicates(s[1..], seen);
      DedupAfterNoDuplicates(s[1..], seen + {s[0]});
      DedupAfterMembers(s[1..], seen + {s[0]});
    }
  }

  /** First position of `x` in `s`. */
  function FirstIndex(s: seq<string>, x: string): (i: nat)
    requires x in s
    ensures i < |s| && s[i] == x && forall j :: 0 <= j < i ==> s[j] != x
  {
    if s[0] == x then 0 else 1 + FirstIndex(s[1..], x)
  }

  /** `r` lists elements of `s` in the order of their first occurrence in `s`. */
  ghost predicate InFirstOccurrenceOrder(r: seq<string>, s: seq<string>) {
    forall i, j :: 0 <= i < j < |r| ==> r[i] in s && r[j] in s && FirstIndex(s, r[i]) < FirstIndex(s, r[j])
  }

  lemma {:induction false} DedupAfterOrder(s: seq<string>, seen: set<string>)
    ensures forall x :: x in DedupAfter(s, seen) ==> x in s
    ensures InFirstOccurrenceOrder(DedupAfter(s, seen), s)
  {
    if s != [] {
      var seen' := if s[0] in seen then seen else seen + {s[0]};
      var t := DedupAfter(s[1..], seen');
      DedupAfterOrder(s[1..], seen');
      DedupAfterMembers(s[1..], seen');
      OrderAfterHead(s, t);
    }
  }

  /** An order among the elements of `s[1..]` other than `s[0]` is still an order in
      `s`, with `s[0]` in front. */
  lemma OrderAfterHead(s: seq<string>, t: seq<string>)
    requires s != [] && forall x :: x in t ==> x in s[1..] && x != s[0]
    requires InFirstOccurrenceOrder(t, s[1..])
    ensures InFirstOccurrenceOrder(t, s) && InFirstOccurrenceOrder([s[0]] + t, s)
  {
    forall x | x in t ensures x in s && FirstIndex(s, x) == 1 + FirstIndex(s[1..], x) {
      FirstIndexTail(s, x);
    }
    var r := [s[0]] + t;
    forall i, j | 0 <= i < j < |r| ensures r[i] in s && r[j] in s && FirstIndex(s, r[i]) < FirstIndex(s, r[j]) {
      assert r[j] == t[j - 1] && r[j] in t;
      if i > 0 {
        assert r[i] == t[i - 1] && r[i] in t;
      }
    }
    forall i, j | 0 <= i < j < |t| ensures t[i] in s && t[j] in s && FirstIndex(s, t[i]) < FirstIndex(s, t[j]) {
      assert t[i] in t && t[j] in t;
    }
  }

  lemma FirstIndexTail(s: seq<string>, x: string)
    requires s != [] && x in s[1..] && x != s[0]
    ensures x in s && FirstIndex(s, x) == 1 + FirstIndex(s[1..], x)
  {
  }

  /** The checkbox list of one service: defaults first, then the selections, each value
      once, in order of first occurrence. */
  function Merged(defaults: seq<string>, selected: seq<string>): seq<string> {
    Dedup(defaults + selected)
  }

  /** The merged list holds every default and every selection exactly once, and lists
      values in the order they first occur among the defaults followed by the selections. */
  lemma MergedSpec(defaults: seq<string>, selected: seq<string>)
    ensures forall x :: x in Merged(defaults, selected) <==> x in defaults || x in selected
    ensures NoDuplicates(Merged(defaults, selected))
    ensures InFirstOccurrenceOrder(Merged(defaults, selected), defaults + selected)
  {
    assert Merged(defaults, selected) == DedupAfter(defaults + selected, {});
    DedupAfterMembers(defaults + selected, {});
    DedupAfterNoDuplicates(defaults + selected, {});
    DedupAfterOrder(defaults + selected, {});
  }

  /** Every default comes before every selection that is not also a default. */
  lemma MergedDefaultsFirst(defaults: seq<string>, selected: seq<string>, i: nat, j: nat)
    requires var r := Merged(defaults, selected); i < |r| && j < |r| && r[i] in defaults && r[j] !in defaults
    ensures i < j
  {
    var s := defaults + selected;
    var r := Merged(defaults, selected);
    MergedSpec(defaults, selected);
    FirstIndexInPrefix(defaults, selected, r[i]);
    FirstIndexInPrefix(defaults, selected, r[j]);
  }

  lemma FirstIndexInPrefix(a: seq<string>, b: seq<string>, x: string)
    requires x in a + b
    ensures x in a ==> FirstIndex(a + b, x) < |a|
    ensures x !in a ==> FirstIndex(a + b, x) >= |a|
  {
    var k := FirstIndex(a + b, x);
    if x in a {
      var i :| 0 <= i < |a| && a[i] == x;
      assert (a + b)[i] == x;
    }
  }

  /** One checkbox: `data-key`, `data-value` and whether it is checked. */
  datatype Checkbox = Checkbox(key: string, value: string, checked: bool)

  /** The checkboxes `renderList(title, key, defaults, selected)` emits. */
  function Rows(key: string, defaults: seq<string>, selected: seq<string>): (rows: seq<Checkbox>)
    ensures |rows| == |Merged(defaults, selected)|
    ensures forall k :: 0 <= k < |rows| ==> rows[k].key == key && rows[k].value == Merged(defaults, selected)[k]
    ensures forall k :: 0 <= k < |rows| ==> (rows[k].checked <==> rows[k].value in selected)
  {
    var items := Merged(defaults, selected);
    seq(|items|, k requires 0 <= k < |items| => Checkbox(key, items[k], items[k] in selected))
  }

  /** All checkboxes of the page, in document order. */
  function PageRows(defaults: Lists, visible: Lists): seq<Checkbox> {
    Rows(LlmKey, defaults.llm, visible.llm) + Rows(AsrKey, defaults.asr, visible.asr)
    + Rows(TtsKey, defaults.tts, visible.tts) + Rows(VrmKey, defaults.vrm, visible.vrm)
  }

  /** With no defaults and nothing stored the page lists no checkbox at all. */
  lemma EmptyPage(storage: map<string, Stored>, decode: Decoder)
    requires forall key :: IsListKey(key) ==> key !in storage
    ensures PageRows(Lists([], [], [], []), GetVisible(storage, Lists([], [], [], []), decode)) == []
  {
    assert Merged([], []) == [];
  }

  /** `btoa` accepts only code points up to U+00FF and throws on any other. */
  predicate Latin1(v: string) {
    forall k :: 0 <= k < |v| ==> v[k] as int <= 0xFF
  }

  predicate AllLatin1(rows: seq<Checkbox>) {
    forall k :: 0 <= k < |rows| ==> Latin1(rows[k].value)
  }

  /** `render()` as written: each listed value goes through `btoa` to form its checkbox
      id, so one value beyond Latin-1 throws before `innerHTML` is assigned and before the
      save and reset handlers are attached. `None` is that failed render. */
  function RenderPage(defaults: Lists, visible: Lists): Option<seq<Checkbox>> {
    var rows := PageRows(defaults, visible);
    if AllLatin1(rows) then Some(rows) else None
  }

  lemma AllLatin1Concat(a: seq<Checkbox>, b: seq<Checkbox>)
    ensures AllLatin1(a + b) <==> AllLatin1(a) && AllLatin1(b)
  {
    if AllLatin1(a + b) {
      forall k | 0 <= k < |a| ensures Latin1(a[k].value) {
        assert (a + b)[k] == a[k];
      }
      forall k | 0 <= k < |b| ensures Latin1(b[k].value) {
        assert (a + b)[|a| + k] == b[k];
      }
    }
  }

  /** A service's checkboxes are all Latin-1 exactly when its defaults and selections are. */
  lemma RowsLatin1(key: string, defaults: seq<string>, selected: seq<string>)
    ensures AllLatin1(Rows(key, defaults, selected)) <==> forall v :: v in defaults || v in selected ==> Latin1(v)
  {
    var rows := Rows(key, defaults, selected);
    var items := Merged(defaults, selected);
    MergedSpec(defaults, selected);
    if AllLatin1(rows) {
      forall v | v in defaults || v in selected ensures Latin1(v) {
        assert v in items;
        var i :| 0 <= i < |items| && items[i] == v;
        assert rows[i].value == v;
      }
    }
  }

  /** No service has a default or a stored value beyond Latin-1. */
  ghost predicate ListsLatin1(defaults: Lists, visible: Lists) {
    forall key, v :: IsListKey(key) && (v in defaults.Get(key) || v in visible.Get(key)) ==> Latin1(v)
  }

  lemma PageLatin1(defaults: Lists, visible: Lists)
    ensures AllLatin1(PageRows(defaults, visible)) <==>
      AllLatin1(Rows(LlmKey, defaults.llm, visible.llm)) && AllLatin1(Rows(AsrKey, defaults.asr, visible.asr))
      && AllLatin1(Rows(TtsKey, defaults.tts, visible.tts)) && AllLatin1(Rows(VrmKey, defaults.vrm, visible.vrm))
  {
    var r1 := Rows(LlmKey, defaults.llm, visible.llm);
    var r2 := Rows(AsrKey, defaults.asr, visible.asr);
    var r3 := Rows(TtsKey, defaults.tts, visible.tts);
    var r4 := Rows(VrmKey, defaults.vrm, visible.vrm);
    assert PageRows(defaults, visible) == r1 + r2 + r3 + r4;
    AllLatin1Concat(r1, r2);
    AllLatin1Concat(r1 + r2, r3);
    AllLatin1Concat(r1 + r2 + r3, r4);
  }

  /** As written, the page renders exactly when no service has a default or a stored
      value with a character beyond U+00FF, and then it shows `PageRows`. */
  lemma RenderPageFails(defaults: Lists, visible: Lists)
    ensures RenderPage(defaults, visible).Some? <==> ListsLatin1(defaults, visible)
    ensures RenderPage(defaults, visible).Some? ==> RenderPage(defaults, visible).value == PageRows(defaults, visible)
  {
    PageLatin1(defaults, visible);
    RowsLatin1(LlmKey, defaults.llm, visible.llm);
    RowsLatin1(AsrKey, defaults.asr, visible.asr);
    RowsLatin1(TtsKey, defaults.tts, visible.tts);
    RowsLatin1(VrmKey, defaults.vrm, visible.vrm);
    if ListsLatin1(defaults, visible) {
      ServiceLatin1(defaults, visible, LlmKey);
      ServiceLatin1(defaults, visible, AsrKey);
      ServiceLatin1(defaults, visible, TtsKey);
      ServiceLatin1(defaults, visible, VrmKey);
    } else {
      var key, v :| IsListKey(key) && (v in defaults.Get(key) || v in visible.Get(key)) && !Latin1(v);
    }
  }

  lemma ServiceLatin1(defaults: Lists, visible: Lists, key: string)
    requires ListsLatin1(defaults, visible) && IsListKey(key)
    ensures forall v :: v in defaults.Get(key) || v in visible.Get(key) ==> Latin1(v)
  {
  }

  /** A default voice list holding `晓晓` (U+6653 U+6653) leaves the admin page unrendered. */
  lemma NonLatin1VoiceBreaksRender()
    ensures RenderPage(Lists([], [], ["晓晓"], []), Lists([], [], [], [])) == None
  {
    var d := Lists([], [], ["晓晓"], []);
    var e := Lists([], [], [], []);
    RenderPageFails(d, e);
    assert !Latin1("晓晓") by {
      assert "晓晓"[0] == '晓';
    }
    assert IsListKey(TtsKey) && "晓晓" in d.Get(TtsKey);
    assert !ListsLatin1(d, e);
  }

  // ---------------------------------------------------------------- save

  /** The values of the checked boxes carrying `key`, in document order. */
  function CheckedValues(checks: seq<Checkbox>, key: string): seq<string> {
    if checks == [] then []
    else
      var c := checks[|checks| - 1];
      CheckedValues(checks[..|checks| - 1], key) + (if c.checked && c.key == key then [c.value] else [])
  }

  /** A value is saved under a key exactly when some checked box carries both. */
  lemma {:induction false} CheckedValuesMembers(checks: seq<Checkbox>, key: string)
    ensures forall x :: x in CheckedValues(checks, key) <==>
      exists i :: 0 <= i < |checks| && checks[i].checked && checks[i].key == key && checks[i].value == x
  {
    if checks != [] {
      var init := checks[..|checks| - 1];
      CheckedValuesMembers(init, key);
      forall x ensures x in CheckedValues(checks, key) <==>
        exists i :: 0 <= i < |checks| && checks[i].checked && checks[i].key == key && checks[i].value == x
      {
        if exists i :: 0 <= i < |checks| && checks[i].checked && checks[i].key == key && checks[i].value == x {
          var i :| 0 <= i < |checks| && checks[i].checked && checks[i].key == key && checks[i].value == x;
          if i < |init| {
            assert init[i] == checks[i];
          }
        }
        if x in CheckedValues(init, key) {
          var i :| 0 <= i < |init| && init[i].checked && init[i].key == key && init[i].value == x;
          assert checks[i] == init[i];
        }
      }
    }
  }

  /** Every checked box carries one of the four keys; otherwise the save handler's
      `grouped[key].push` throws. */
  ghost predicate CheckedKeysKnown(checks: seq<Checkbox>) {
    forall i :: 0 <= i < |checks| && checks[i].checked ==> IsListKey(checks[i].key)
  }

  /** The `grouped` dictionary of the save handler. */
  function Grouped(checks: seq<Checkbox>): map<string, seq<string>> {
    map key | key in ListKeys :: CheckedValues(checks, key)
  }

  /** The `forEach` of the save handler: starting from an empty list per key, push the
      value of each checked box onto its key's list; a checked box with another key stops
      the handler, reported as `None`. */
  method GroupChecked(checks: seq<Checkbox>) returns (grouped: Option<map<string, seq<string>>>)
    ensures grouped.Some? <==> CheckedKeysKnown(checks)
    ensures grouped.Some? ==> grouped.value == Grouped(checks)
  {
    var g: map<string, seq<string>> := map[LlmKey := [], AsrKey := [], TtsKey := [], VrmKey := []];
    var i := 0;
    while i < |checks|
      invariant 0 <= i <= |checks|
      invariant CheckedKeysKnown(checks[..i])
      invariant g.Keys == set key | key in ListKeys
      invariant forall key :: key in ListKeys ==> g[key] == CheckedValues(checks[..i], key)
    {
      var c := checks[i];
      assert checks[..i + 1][..i] == checks[..i];
      if c.checked {
        if c.key !in g {
          assert !CheckedKeysKnown(checks);
          return None;
        }
        g := g[c.key := g[c.key] + [c.value]];
      }
      i := i + 1;
    }
    assert checks[..i] == checks;
    grouped := Some(g);
  }

  /** The four writes of the save handler, in key order. */
  function WriteGroups(storage: map<string, Stored>, keys: seq<string>, checks: seq<Checkbox>): map<string, Stored> {
    if keys == [] then storage
    else
      var key := keys[|keys| - 1];
      WriteGroups(storage, keys[..|keys| - 1], checks)[key := Saved(CheckedValues(checks, key))]
  }

  lemma {:induction false} WriteGroupsAt(storage: map<string, Stored>, keys: seq<string>, checks: seq<Checkbox>, key: string)
    ensures key in keys ==> key in WriteGroups(storage, keys, checks) && WriteGroups(storage, keys, checks)[key] == Saved(CheckedValues(checks, key))
    ensures key !in keys ==> (key in WriteGroups(storage, keys, checks) <==> key in storage)
    ensures key !in keys && key in storage ==> WriteGroups(storage, keys, checks)[key] == storage[key]
  {
    if keys != [] {
      var init := keys[..|keys| - 1];
      WriteGroupsAt(storage, init, checks, key);
      assert keys == init + [keys[|keys| - 1]];
    }
  }

  /** After a save, each of the four lists reads back as exactly the checked values of
      its key, in document order; a key with nothing checked reads back as the empty
      list, not as its default. */
  lemma SaveReadsBack(storage: map<string, Stored>, checks: seq<Checkbox>, defaults: Lists, decode: Decoder)
    ensures var v := GetVisible(WriteGroups(storage, ListKeys, checks), defaults, decode);
      v == Lists(CheckedValues(checks, LlmKey), CheckedValues(checks, AsrKey),
                 CheckedValues(checks, TtsKey), CheckedValues(checks, VrmKey))
  {
    WriteGroupsAt(storage, ListKeys, checks, LlmKey);
    WriteGroupsAt(storage, ListKeys, checks, AsrKey);
    WriteGroupsAt(storage, ListKeys, checks, TtsKey);
    WriteGroupsAt(storage, ListKeys, checks, VrmKey);
  }

  /** Saving the page without touching a box keeps each service's selection as a set,
      now without duplicates: a value stays selected exactly when it was. */
  lemma ResaveKeepsSelection(key: string, defaults: seq<string>, selected: seq<string>, x: string)
    ensures x in CheckedValues(Rows(key, defaults, selected), key) <==> x in selected
  {
    var rows := Rows(key, defaults, selected);
    CheckedValuesMembers(rows, key);
    MergedSpec(defaults, selected);
    if x in selected {
      var r := Merged(defaults, selected);
      var i :| 0 <= i < |r| && r[i] == x;
      assert rows[i].checked && rows[i].key == key && rows[i].value == x;
    }
  }

  lemma {:induction false} CheckedValuesConcat(a: seq<Checkbox>, b: seq<Checkbox>, key: string)
    ensures CheckedValues(a + b, key) == CheckedValues(a, key) + CheckedValues(b, key)
    decreases |b|
  {
    if b == [] {
      assert a + b == a;
    } else {
      CheckedValuesConcat(a, b[..|b| - 1], key);
      assert (a + b)[..|a + b| - 1] == a + b[..|b| - 1];
      assert (a + b)[|a + b| - 1] == b[|b| - 1];
    }
  }

  /** Another service's checkboxes contribute nothing to a key's group. */
  lemma RowsOfOtherKey(other: string, defaults: seq<string>, selected: seq<string>, key: string)
    requires other != key
    ensures CheckedValues(Rows(other, defaults, selected), key) == []
  {
    CheckedValuesWithoutKey(Rows(other, defaults, selected), key);
  }

  lemma {:induction false} CheckedValuesWithoutKey(checks: seq<Checkbox>, key: string)
    requires forall k :: 0 <= k < |checks| ==> checks[k].key != key
    ensures CheckedValues(checks, key) == []
  {
    if checks != [] {
      CheckedValuesWithoutKey(checks[..|checks| - 1], key);
    }
  }

  /** On the whole page, a key's group is its own service's checked values. */
  lemma PageCheckedValues(defaults: Lists, visible: Lists, key: string)
    requires IsListKey(key)
    ensures CheckedValues(PageRows(defaults, visible), key) == CheckedValues(Rows(key, defaults.Get(key), visible.Get(key)), key)
  {
    var r1 := Rows(LlmKey, defaults.llm, visible.llm);
    var r2 := Rows(AsrKey, defaults.asr, visible.asr);
    var r3 := Rows(TtsKey, defaults.tts, visible.tts);
    var r4 := Rows(VrmKey, defaults.vrm, visible.vrm);
    assert PageRows(defaults, visible) == r1 + r2 + r3 + r4;
    CheckedValuesConcat(r1, r2, key);
    CheckedValuesConcat(r1 + r2, r3, key);
    CheckedValuesConcat(r1 + r2 + r3, r4, key);
    var own := CheckedValues(Rows(key, defaults.Get(key), visible.Get(key)), key);
    if key == LlmKey {
      RowsOfOtherKey(AsrKey, defaults.asr, visible.asr, key);
      RowsOfOtherKey(TtsKey, defaults.tts, visible.tts, key);
      RowsOfOtherKey(VrmKey, defaults.vrm, visible.vrm, key);
      assert CheckedValues(PageRows(defaults, visible), key) == own + [] + [] + [];
    } else if key == AsrKey {
      RowsOfOtherKey(LlmKey, defaults.llm, visible.llm, key);
      RowsOfOtherKey(TtsKey, defaults.tts, visible.tts, key);
      RowsOfOtherKey(VrmKey, defaults.vrm, visible.vrm, key);
      assert CheckedValues(PageRows(defaults, visible), key) == [] + own + [] + [];
    } else if key == TtsKey {
      RowsOfOtherKey(LlmKey, defaults.llm, visible.llm, key);
      RowsOfOtherKey(AsrKey, defaults.asr, visible.asr, key);
      RowsOfOtherKey(VrmKey, defaults.vrm, visible.vrm, key);
      assert CheckedValues(PageRows(defaults, visible), key) == [] + [] + own + [];
    } else {
      RowsOfOtherKey(LlmKey, defaults.llm, visible.llm, key);
      RowsOfOtherKey(AsrKey, defaults.asr, visible.asr, key);
      RowsOfOtherKey(TtsKey, defaults.tts, visible.tts, key);
      assert CheckedValues(PageRows(defaults, visible), key) == [] + [] + [] + own;
    }
  }

  /** Saving a page that rendered, without touching a box, keeps every service's
      selection as a set. */
  lemma ResaveRenderedPage(defaults: Lists, visible: Lists, key: string, x: string)
    requires IsListKey(key) && RenderPage(defaults, visible).Some?
    ensures x in CheckedValues(RenderPage(defaults, visible).value, key) <==> x in visible.Get(key)
  {
    PageCheckedValues(defaults, visible, key);
    ResaveKeepsSelection(key, defaults.Get(key), visible.Get(key), x);
  }

  // ---------------------------------------------------------------- reset

  /** The reset handler: the four list keys are removed. */
  function Cleared(storage: map<string, Stored>): (r: map<string, Stored>)
    ensures forall key :: key in r <==> key in storage && !IsListKey(key)
    ensures forall key :: key in r ==> r[key] == storage[key]
  {
    storage - {LlmKey, AsrKey, TtsKey, VrmKey}
  }

  /** After a reset the page shows the defaults again. */
  lemma ResetShowsDefaults(storage: map<string, Stored>, defaults: Lists, decode: Decoder)
    ensures GetVisible(Cleared(storage), defaults, decode) == defaults
  {
  }
}
