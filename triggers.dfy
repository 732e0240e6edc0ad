/** The keyword table behind the `m!` auto-replies: keyword extraction from a
    chat message, lookup of a non-empty response, and the listing of all
    registered keywords. */
module Triggers {
  import opened Text

  /** The sentinel that marks a chat message as a trigger. */
  const TRIGGER_PREFIX := "m!"

  /** The keyword of a chat message: the content with the sentinel removed,
      when the content starts with it. */
  function Keyword(content: string): (r: Option<string>)
    ensures r.Some? <==> StartsWith(content, TRIGGER_PREFIX)
    ensures r.Some? ==> content == TRIGGER_PREFIX + r.value
  {
    if StartsWith(content, TRIGGER_PREFIX) then Some(ReplaceFirst(content, TRIGGER_PREFIX, ""))
    else None
  }

  /** Removing the first occurrence of the sentinel from a message that
      starts with it drops exactly the first two characters. */
  lemma KeywordDropsPrefix(content: string)
    requires StartsWith(content, TRIGGER_PREFIX)
    ensures Keyword(content) == Some(content[2..])
  {
  }

  /** The response a chat message triggers, if any: only a stored response
      that is not empty counts. */
  function Dispatch(triggers: map<string, string>, content: string): (r: Option<string>)
    ensures r.Some? <==>
      StartsWith(content, TRIGGER_PREFIX) && content[2..] in triggers && triggers[content[2..]] != ""
    ensures r.Some? ==> r.value == triggers[content[2..]]
  {
    match Keyword(content)
    case None => None
    case Some(word) =>
      KeywordDropsPrefix(content);
      if word in triggers && triggers[word] != "" then Some(triggers[word]) else None
  }

  /** After registering a non-empty response for a keyword, `m!<keyword>`
      triggers exactly that response; other messages trigger what they did. */
  lemma DispatchAfterRegister(triggers: map<string, string>, keyword: string, response: string, content: string)
    requires response != ""
    ensures Dispatch(triggers[keyword := response], TRIGGER_PREFIX + keyword) == Some(response)
    ensures content != TRIGGER_PREFIX + keyword ==>
      Dispatch(triggers[keyword := response], content) == Dispatch(triggers, content)
  {
  }

  datatype TriggerList = NoTriggers | Listing(entries: seq<(string, string)>)

  /** The keywords named by a list of entries. */
  function ListedKeys(entries: seq<(string, string)>): set<string>
    decreases |entries|
  {
    if entries == [] then {} else ListedKeys(entries[..|entries| - 1]) + {entries[|entries| - 1].0}
  }

  /** Entries that each pair a keyword of `triggers` with its response and
      name no keyword twice. */
  ghost predicate FaithfulEntries(triggers: map<string, string>, entries: seq<(string, string)>)
  {
    && (forall k :: 0 <= k < |entries| ==> entries[k].0 in triggers && triggers[entries[k].0] == entries[k].1)
    && (forall a, b :: 0 <= a < b < |entries| ==> entries[a].0 != entries[b].0)
  }

  /** `list` lists every registered keyword once, each with its response. */
  ghost predicate IsListingOf(triggers: map<string, string>, list: TriggerList)
  {
    if triggers == map[] then list == NoTriggers
    else
      && list.Listing?
      && |list.entries| == |triggers|
      && FaithfulEntries(triggers, list.entries)
      && ListedKeys(list.entries) == triggers.Keys
  }

  /** Appending a keyword not listed yet keeps the entries faithful. */
  lemma ListOneMore(triggers: map<string, string>, entries: seq<(string, string)>, key: string)
    requires FaithfulEntries(triggers, entries) && key in triggers && key !in ListedKeys(entries)
    requires |entries| == |ListedKeys(entries)|
    ensures FaithfulEntries(triggers, entries + [(key, triggers[key])])
    ensures ListedKeys(entries + [(key, triggers[key])]) == ListedKeys(entries) + {key}
    ensures |entries + [(key, triggers[key])]| == |ListedKeys(entries + [(key, triggers[key])])|
  {
    var longer := entries + [(key, triggers[key])];
    assert longer[..|longer| - 1] == entries;
    forall k | 0 <= k < |entries|
      ensures entries[k].0 in ListedKeys(entries)
    {
      ListedKeyAt(entries, k);
    }
  }

  lemma {:induction false} ListedKeyAt(entries: seq<(string, string)>, k: nat)
    requires k < |entries|
    ensures entries[k].0 in ListedKeys(entries)
    decreases |entries|
  {
    if k < |entries| - 1 {
      ListedKeyAt(entries[..|entries| - 1], k);
    }
  }

  /** The trigger list command: the empty table gets the "none registered"
      reply, otherwise one entry per keyword is accumulated. */
  method ListTriggers(triggers: map<string, string>) returns (list: TriggerList)
    ensures IsListingOf(triggers, list)
  {
    if |triggers| == 0 {
      return NoTriggers;
    }
    var remaining := triggers.Keys;
    var entries: seq<(string, string)> := [];
    while remaining != {}
      invariant remaining <= triggers.Keys
      invariant ListedKeys(entries) == triggers.Keys - remaining
      invariant |entries| == |ListedKeys(entries)|
      invariant FaithfulEntries(triggers, entries)
      decreases |remaining|
    {
      var key :| key in remaining;
      ListOneMore(triggers, entries, key);
      entries := entries + [(key, triggers[key])];
      remaining := remaining - {key};
    }
    list := Listing(entries);
  }
}
