/** The admin page's handlers, each a change to `localStorage`: saving the
    checked lists, resetting them, storing a service's credentials and the
    direct-connection switch, and storing a fetched model list. */
module AdminStorage {
  import opened Optional
  import opened Strings
  import opened AdminConfig
  import opened ModelFetch

  const DevEnabledKey: string := "dev_enabled"

  /** The form fields and storage keys of a service's base URL and API key. */
  function CredentialIds(serviceKey: string): (ids: (string, string))
    requires IsListKey(serviceKey)
    ensures !IsListKey(ids.0) && !IsListKey(ids.1) && ids.0 != ids.1
  {
    if serviceKey == LlmKey then ("dev_llm_base", "dev_api_key")
    else if serviceKey == AsrKey then ("dev_asr_base", "dev_asr_key")
    else if serviceKey == TtsKey then ("dev_tts_base", "dev_tts_key")
    else ("dev_vrm_base", "dev_vrm_key")
  }

  /** `localStorage.getItem(id) || ''` at a key that holds plain text. */
  function StoredText(entries: map<string, Stored>, id: string): string {
    if id in entries && entries[id].Text? then entries[id].raw else []
  }

  /** `(field.value || localStorage.getItem(id) || '').trim()`. */
  function Resolve(field: string, entries: map<string, Stored>, id: string): string {
    Trim(if field != [] then field else StoredText(entries, id))
  }

  /** The list "获取模型" for `serviceKey` stores, given the two form fields, the page
      configuration (`None` when no global `appConfig` exists and the handler stops with
      a `ReferenceError`) and the answer to the request; `None` when nothing is stored. */
  function Fetched(entries: map<string, Stored>, serviceKey: string, baseField: string, keyField: string,
                   config: Option<DevConfig>, response: Response): (r: Option<seq<string>>)
    ensures r.Some? ==> config.Some? && IsListKey(serviceKey) && r.value != []
  {
    if config.None? || !IsListKey(serviceKey) then None
    else
      var ids := CredentialIds(serviceKey);
      var base := Resolve(baseField, entries, ids.0);
      var key := Resolve(keyField, entries, ids.1);
      if base == [] || key == [] then None
      else
        var list := FetchList(ListUrl(serviceKey, base, config.value), response);
        if list != [] then Some(list) else None
  }

  /** The storage after "获取模型". */
  function AfterFetch(entries: map<string, Stored>, serviceKey: string, baseField: string, keyField: string,
                      config: Option<DevConfig>, response: Response): (r: map<string, Stored>)
    ensures r.Keys == entries.Keys || r.Keys == entries.Keys + {serviceKey}
    ensures forall k :: k in entries && k != serviceKey ==> r[k] == entries[k]
  {
    match Fetched(entries, serviceKey, baseField, keyField, config, response)
    case Some(list) => entries[serviceKey := Saved(list)]
    case None => entries
  }

  /** A fetch stores only a non-empty list, only at the service's own list key, and
      never when the base URL or the API key is blank after trimming. */
  lemma AfterFetchSpec(entries: map<string, Stored>, serviceKey: string, baseField: string, keyField: string,
                       config: Option<DevConfig>, response: Response)
    ensures var f := Fetched(entries, serviceKey, baseField, keyField, config, response);
      f.Some? ==> (IsListKey(serviceKey) && f.value != []
                   && AfterFetch(entries, serviceKey, baseField, keyField, config, response) == entries[serviceKey := Saved(f.value)])
    ensures Fetched(entries, serviceKey, baseField, keyField, config, response).None? ==>
      AfterFetch(entries, serviceKey, baseField, keyField, config, response) == entries
    ensures (IsListKey(serviceKey) &&
      (Resolve(baseField, entries, CredentialIds(serviceKey).0) == [] || Resolve(keyField, entries, CredentialIds(serviceKey).1) == [])) ==>
      Fetched(entries, serviceKey, baseField, keyField, config, response).None?
  {
  }

  /** With `appConfig` present, a known service and both credentials non-blank, the fetch
      stores exactly the list `fetchList` returns for the service's URL, when that list is
      not empty, and only at the service's own key. */
  lemma FetchedStores(entries: map<string, Stored>, serviceKey: string, baseField: string, keyField: string,
                      config: Option<DevConfig>, response: Response)
    requires config.Some? && IsListKey(serviceKey)
    requires Resolve(baseField, entries, CredentialIds(serviceKey).0) != []
    requires Resolve(keyField, entries, CredentialIds(serviceKey).1) != []
    ensures var l := FetchList(ListUrl(serviceKey, Resolve(baseField, entries, CredentialIds(serviceKey).0), config.value), response);
      Fetched(entries, serviceKey, baseField, keyField, config, response) == (if l != [] then Some(l) else None)
      && AfterFetch(entries, serviceKey, baseField, keyField, config, response)
         == (if l != [] then entries[serviceKey := Saved(l)] else entries)
  {
  }

  /** A fetched list is what the page shows for that service afterwards; the other
      services show what they showed before. */
  lemma FetchedListIsShown(entries: map<string, Stored>, serviceKey: string, baseField: string, keyField: string,
                           config: Option<DevConfig>, response: Response, defaults: Lists, decode: Decoder)
    requires Fetched(entries, serviceKey, baseField, keyField, config, response).Some?
    ensures IsListKey(serviceKey)
    ensures var e := AfterFetch(entries, serviceKey, baseField, keyField, config, response);
      GetVisible(e, defaults, decode).Get(serviceKey) == Fetched(entries, serviceKey, baseField, keyField, config, response).value
      && forall k :: IsListKey(k) && k != serviceKey ==> GetVisible(e, defaults, decode).Get(k) == GetVisible(entries, defaults, decode).Get(k)
  {
    var e := AfterFetch(entries, serviceKey, baseField, keyField, config, response);
    AfterFetchSpec(entries, serviceKey, baseField, keyField, config, response);
    forall k | IsListKey(k) && k != serviceKey
      ensures GetVisible(e, defaults, decode).Get(k) == GetVisible(entries, defaults, decode).Get(k)
    {
      assert StoredList(e, k, defaults.Get(k), decode) == StoredList(entries, k, defaults.Get(k), decode);
    }
  }

  /** `localStorage`, with the keys this page uses. */
  class LocalStore {
    var entries: map<string, Stored>

    /** A list value is only ever written at one of the four list keys. */
    ghost predicate Valid()
      reads this
    {
      forall k :: k in entries && entries[k].Saved? ==> IsListKey(k)
    }

    constructor (initial: map<string, Stored>)
      requires forall k :: k in initial ==> initial[k].Text?
      ensures entries == initial && Valid()
    {
      entries := initial;
    }

    /** "保存可见列表": group the checked boxes and store one list per key. A checked box
        with another key stops the handler before anything is stored. */
    method SaveVisible(checks: seq<Checkbox>) returns (saved: bool)
      requires Valid()
      modifies this
      ensures Valid()
      ensures saved <==> CheckedKeysKnown(checks)
      ensures saved ==> entries == WriteGroups(old(entries), ListKeys, checks)
      ensures !saved ==> entries == old(entries)
    {
      var grouped := GroupChecked(checks);
      if grouped.None? {
        return false;
      }
      var g := grouped.value;
      var i := 0;
      while i < |ListKeys|
        invariant 0 <= i <= |ListKeys|
        invariant entries == WriteGroups(old(entries), ListKeys[..i], checks)
        invariant Valid()
      {
        var key := ListKeys[i];
        assert ListKeys[..i + 1][..i] == ListKeys[..i];
        entries := entries[key := Saved(g[key])];
        i := i + 1;
      }
      assert ListKeys[..i] == ListKeys;
      saved := true;
    }

    /** "恢复为默认": remove the four list keys. */
    method Reset()
      requires Valid()
      modifies this
      ensures Valid()
      ensures entries == Cleared(old(entries))
    {
      var i := 0;
      while i < |ListKeys|
        invariant 0 <= i <= |ListKeys|
        invariant forall k :: k in entries <==> k in old(entries) && k !in ListKeys[..i]
        invariant forall k :: k in entries ==> entries[k] == old(entries)[k]
      {
        entries := entries - {ListKeys[i]};
        i := i + 1;
      }
      assert ListKeys[..i] == ListKeys;
    }

    /** "保存此服务凭据": store the service's trimmed base URL and API key. */
    method SaveCredentials(serviceKey: string, baseField: string, keyField: string)
      requires Valid()
      modifies this
      ensures Valid()
      ensures !IsListKey(serviceKey) ==> entries == old(entries)
      ensures IsListKey(serviceKey) ==>
        entries == old(entries)[CredentialIds(serviceKey).0 := Text(Trim(baseField))][CredentialIds(serviceKey).1 := Text(Trim(keyField))]
    {
      if !IsListKey(serviceKey) {
        return;
      }
      var ids := CredentialIds(serviceKey);
      entries := entries[ids.0 := Text(Trim(baseField))];
      entries := entries[ids.1 := Text(Trim(keyField))];
    }

    /** "保存开发配置": store the direct-connection switch as `true` or `false`. */
    method SaveDevEnabled(enabled: bool)
      requires Valid()
      modifies this
      ensures Valid()
      ensures entries == old(entries)[DevEnabledKey := Text(if enabled then "true" else "false")]
    {
      entries := entries[DevEnabledKey := Text(if enabled then "true" else "false")];
    }

    /** `doFetchFor(serviceKey)`: store the fetched list when it is not empty. */
    method FetchFor(serviceKey: string, baseField: string, keyField: string, config: Option<DevConfig>, response: Response)
      returns (updated: bool)
      requires Valid()
      modifies this
      ensures Valid()
      ensures entries == AfterFetch(old(entries), serviceKey, baseField, keyField, config, response)
      ensures updated <==> Fetched(old(entries), serviceKey, baseField, keyField, config, response).Some?
    {
      if config.None? || !IsListKey(serviceKey) {
        return false;
      }
      var ids := CredentialIds(serviceKey);
      var base := Resolve(baseField, entries, ids.0);
      var key := Resolve(keyField, entries, ids.1);
      if base == [] || key == [] {
        return false;
      }
      var list := FetchList(ListUrl(serviceKey, base, config.value), response);
      if list == [] {
        return false;
      }
      entries := entries[serviceKey := Saved(list)];
      updated := true;
    }
  }

  /** What a saved credential becomes when the field is left blank later: the stored text,
      already trimmed, is what a fetch uses. */
  lemma SavedCredentialIsUsed(entries: map<string, Stored>, serviceKey: string, baseField: string, keyField: string)
    requires IsListKey(serviceKey)
    ensures var ids := CredentialIds(serviceKey);
      var e := entries[ids.0 := Text(Trim(baseField))][ids.1 := Text(Trim(keyField))];
      Resolve([], e, ids.0) == Trim(baseField) && Resolve([], e, ids.1) == Trim(keyField)
  {
    TrimIdempotent(baseField);
    TrimIdempotent(keyField);
  }
}
