/** The progress memory shared by all bars: one object, read and rewritten whole, mapping a bar's
    key (`notePath + "-" + name`) to the day and the progress last saved for it. The file it
    lives in is abstracted to a map; the current day (`YYYY-MM-DD`) is a parameter.
 */
module Persistence {
  import opened JsNumber

  datatype Record = Record(date: string, progress: Num)

  type Store = map<string, Record>

  /** `${this.notePath}-${this.name}`. */
  function MemoryKey(notePath: string, name: string): string {
    notePath + "-" + name
  }

  /** Two bars whose names contain no `-` (every sanitised name) share a key only when they have
      the same note and the same name. */
  lemma MemoryKeyInjective(notePath1: string, name1: string, notePath2: string, name2: string)
    requires '-' !in name1 && '-' !in name2
    requires MemoryKey(notePath1, name1) == MemoryKey(notePath2, name2)
    ensures notePath1 == notePath2 && name1 == name2
  {
    var s := MemoryKey(notePath1, name1);
    assert s == notePath1 + ("-" + name1) == notePath2 + ("-" + name2);
    assert s[|s| - |name1| - 1] == '-';
    assert s[|s| - |name2| - 1] == '-';
    assert forall j :: |s| - |name1| <= j < |s| ==> s[j] == name1[j - (|s| - |name1|)];
    assert forall j :: |s| - |name2| <= j < |s| ==> s[j] == name2[j - (|s| - |name2|)];
    assert |name1| == |name2|;
    assert name1 == s[|s| - |name1|..] == name2;
    assert notePath1 == s[..|notePath1|] == notePath2;
  }

  /** `data[memoryKey] && data[memoryKey].date === today`. */
  predicate HasFreshRecord(store: Store, key: string, today: string) {
    key in store && store[key].date == today
  }

  /** `loadProgressFromMemory`: the saved progress when it was saved today, 0 otherwise. */
  function LoadProgress(store: Store, key: string, today: string): (p: Num)
    ensures HasFreshRecord(store, key, today) ==> p == store[key].progress
    ensures !HasFreshRecord(store, key, today) ==> p == Int(0)
  {
    if key in store && store[key].date == today then store[key].progress else Int(0)
  }

  /** `saveProgressToMemory`: read the store, overwrite one key, write it back. */
  function SaveProgress(store: Store, key: string, today: string, progress: Num): (r: Store)
    ensures r.Keys == store.Keys + {key}
    ensures r[key] == Record(today, progress)
    ensures forall k :: k in store && k != key ==> r[k] == store[k]
  {
    store[key := Record(today, progress)]
  }

  /** What `clearOldEntries` leaves: the entries saved today, unchanged. */
  function Prune(store: Store, today: string): (r: Store)
    ensures forall k :: k in r <==> k in store && store[k].date == today
    ensures forall k :: k in r ==> r[k] == store[k]
  {
    map k | k in store && store[k].date == today :: store[k]
  }

  /** `clearOldEntries`: walk the keys and delete every entry not saved today. */
  method ClearOldEntries(data: Store, today: string) returns (r: Store)
    ensures r == Prune(data, today)
  {
    r := data;
    var keys := data.Keys;
    while keys != {}
      invariant keys <= data.Keys
      invariant forall k :: k in r <==> k in data && (k in keys || data[k].date == today)
      invariant forall k :: k in r ==> r[k] == data[k]
      decreases keys
    {
      var key :| key in keys;
      if r[key].date != today {
        r := r - {key};
      }
      keys := keys - {key};
    }
  }

  /** Pruning twice is pruning once. */
  lemma PruneIdempotent(store: Store, today: string)
    ensures Prune(Prune(store, today), today) == Prune(store, today)
  {
  }

  /** Pruning never changes what a bar loads on the same day. */
  lemma LoadAfterPrune(store: Store, key: string, today: string)
    ensures LoadProgress(Prune(store, today), key, today) == LoadProgress(store, key, today)
  {
  }

  /** A bar reloaded on the day it saved gets back exactly what it saved. */
  lemma LoadAfterSave(store: Store, key: string, today: string, progress: Num)
    ensures LoadProgress(SaveProgress(store, key, today, progress), key, today) == progress
  {
  }

  /** Daily expiry: on any other day, what was saved reads as 0. */
  lemma LoadAfterSaveOnAnotherDay(store: Store, key: string, today: string, progress: Num, day: string)
    requires day != today
    ensures LoadProgress(SaveProgress(store, key, today, progress), key, day) == Int(0)
  {
  }

  /** Saving one bar does not change what any other bar loads. */
  lemma LoadAfterSaveOfOtherKey(store: Store, key: string, today: string, progress: Num, other: string, day: string)
    requires other != key
    ensures LoadProgress(SaveProgress(store, key, today, progress), other, day) == LoadProgress(store, other, day)
  {
  }

  /** A save made today survives today's prune, and pruning commutes with it. */
  lemma PruneAfterSave(store: Store, key: string, today: string, progress: Num)
    ensures Prune(SaveProgress(store, key, today, progress), today)
         == SaveProgress(Prune(store, today), key, today, progress)
  {
  }
}
