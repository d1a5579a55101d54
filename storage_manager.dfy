/**
 * The storage manager: save records kept as JSON text in `localStorage`
 * under `<storageKey>_<playerName>_<currentDay>`, an index of them under
 * `<storageKey>_index`, listing, loading (with recovery), clearing and a
 * usage estimate.  Each operation is a method of `StorageManager` proved
 * against a function on the storage contents; the properties are lemmas
 * about those functions.
 */
module Storage {
  import opened Wrappers
  import opened JsonValue
  import opened BrowserStorage
  import JsText
  import SaveData
  import Sequences

  datatype StorageConfig = StorageConfig(
    storageKey: string, maxSaveSlots: int, autoSaveInterval: int, compressionEnabled: bool)

  /** The configuration the constructor falls back on */
  const DefaultConfig := StorageConfig("rulegame_save", 5, 300000, true)

  /** The size `getStorageUsage` assumes for `localStorage`: 5 MB */
  const StorageTotal := 5 * 1024 * 1024

  // ---------------------------------------------------------------- keys

  /** What a template literal makes of member `k` of `v` (`undefined` when it is missing) */
  function FieldText(v: Json, k: string): string {
    match Get(v, k)
    case Some(x) => ToJsString(x)
    case None => "undefined"
  }

  /** The key `load` and `clear` use for a player and a day */
  function SaveKey(sk: string, name: string, day: int): string {
    sk + "_" + name + "_" + JsText.NumText(day)
  }

  /** The key `save` writes a record under */
  function RecordKey(sk: string, v: Json): string {
    sk + "_" + FieldText(v, "playerName") + "_" + FieldText(v, "currentDay")
  }

  function IndexKey(sk: string): string {
    sk + "_index"
  }

  /** A key `getSaveKeys` lists: non-empty and starting with `<storageKey>_` */
  predicate IsSaveKey(sk: string, k: string) {
    k != "" && JsText.StartsWith(k, sk + "_")
  }

  lemma Prefixed(sk: string, t: string)
    ensures IsSaveKey(sk, sk + "_" + t)
  {
    assert (sk + "_" + t)[..|sk + "_"|] == sk + "_";
  }

  /** A valid record is written under the key `load` reads for its player and day. */
  lemma ValidRecordKey(sk: string, v: Json)
    requires SaveData.IsValidSave(v)
    ensures RecordKey(sk, v) == SaveKey(sk, Get(v, "playerName").value.s, Get(v, "currentDay").value.n)
  {
  }

  /**
   * No player and day share the index's key: `<name>_<day>` holds an
   * underscore where `index` has none.
   */
  lemma SaveKeyNotIndex(sk: string, name: string, day: int)
    ensures SaveKey(sk, name, day) != IndexKey(sk)
  {
    var a, b := SaveKey(sk, name, day), IndexKey(sk);
    if |a| == |b| {
      var p := |sk| + 1 + |name|;
      assert a[p] == '_';
      assert forall t :: 0 <= t < 5 ==> "index"[t] != '_';
      assert b[p] == "index"[|name|];
    }
  }

  lemma RecordKeyNotIndex(sk: string, v: Json)
    requires SaveData.IsValidSave(v)
    ensures RecordKey(sk, v) != IndexKey(sk)
  {
    ValidRecordKey(sk, v);
    SaveKeyNotIndex(sk, Get(v, "playerName").value.s, Get(v, "currentDay").value.n);
  }

  // ------------------------------------------------------------- records

  /** What `getAllSaves` keeps of a stored text: non-empty, parsed, and valid */
  function RecordOf(s: Stored): Option<Json> {
    if s.text != "" && s.parsed.Some? && SaveData.IsValidSave(s.parsed.value) then s.parsed else None
  }

  predicate IsRecordEntry(sk: string, e: Entry) {
    IsSaveKey(sk, e.key) && RecordOf(e.value).Some?
  }

  function RecordAt(sk: string, e: Entry): seq<Json> {
    if IsRecordEntry(sk, e) then [RecordOf(e.value).value] else []
  }

  /** The valid records stored under save keys, in storage order */
  function Records(es: seq<Entry>, sk: string): seq<Json> {
    if es == [] then [] else Records(es[..|es| - 1], sk) + RecordAt(sk, es[|es| - 1])
  }

  /** `getSaveKeys`: the save keys in storage order */
  function SaveKeys(es: seq<Entry>, sk: string): seq<string> {
    if es == [] then []
    else SaveKeys(es[..|es| - 1], sk) + (if IsSaveKey(sk, es[|es| - 1].key) then [es[|es| - 1].key] else [])
  }

  /** The record found under key `k`, as `getAllSaves` reads it */
  function RecordUnder(es: seq<Entry>, k: string): seq<Json> {
    match Lookup(es, k)
    case Some(s) => if RecordOf(s).Some? then [RecordOf(s).value] else []
    case None => []
  }

  /** The records `getAllSaves` collects, key by key, before sorting */
  function RecordsAt(es: seq<Entry>, ks: seq<string>): seq<Json> {
    if ks == [] then [] else RecordsAt(es, ks[..|ks| - 1]) + RecordUnder(es, ks[|ks| - 1])
  }

  // ------------------------------------------------------------- sorting

  /**
   * `lastSaveTime` as the subtraction in the sort converts it, for
   * integers. A missing time, a time JavaScript reads as a number that is
   * not a signed decimal integer (`1.5`, `1e3`, `0x10`, `Infinity`), and
   * one it reads as `NaN` all read 0.
   */
  function SaveTime(v: Json): int {
    match Get(v, "lastSaveTime")
    case None => 0
    case Some(x) => if ToNumber(x).Some? then ToNumber(x).value else 0
  }

  /** A time saved as numeric text sorts as that number. */
  lemma TextTimeSorts(v: Json, n: int)
    requires Get(v, "lastSaveTime") == Some(JStr(JsText.NumText(n)))
    ensures SaveTime(v) == n
  {
    NumberOfNumText(n);
  }

  /** The sort key: oldest first, or newest first */
  function OrderKey(v: Json, newestFirst: bool): int {
    if newestFirst then -SaveTime(v) else SaveTime(v)
  }

  /** Each element's key is at most the next one's. */
  predicate Sorted(xs: seq<Json>, newestFirst: bool) {
    forall i :: 0 <= i < |xs| - 1 ==> OrderKey(xs[i], newestFirst) <= OrderKey(xs[i + 1], newestFirst)
  }

  lemma {:induction false} SortedAll(xs: seq<Json>, newestFirst: bool)
    requires Sorted(xs, newestFirst)
    ensures forall i, j :: 0 <= i < j < |xs| ==> OrderKey(xs[i], newestFirst) <= OrderKey(xs[j], newestFirst)
    decreases |xs|
  {
    if |xs| > 1 {
      var t := xs[1..];
      assert forall j :: 1 <= j < |xs| ==> xs[j] == t[j - 1];
      SortedAll(t, newestFirst);
      forall i, j | 0 <= i < j < |xs|
        ensures OrderKey(xs[i], newestFirst) <= OrderKey(xs[j], newestFirst)
      {
        if i == 0 && j > 1 {
          assert OrderKey(t[0], newestFirst) <= OrderKey(t[j - 1], newestFirst);
        }
      }
    }
  }

  function Insert(x: Json, xs: seq<Json>, newestFirst: bool): (r: seq<Json>)
    ensures |r| == |xs| + 1
  {
    if xs == [] then [x]
    else if OrderKey(xs[0], newestFirst) <= OrderKey(x, newestFirst) then
      [xs[0]] + Insert(x, xs[1..], newestFirst)
    else [x] + xs
  }

  /**
   * `saves.sort(...)` by `lastSaveTime`: a stable sort, so records with
   * the same time keep their order, as JavaScript's sort does.
   */
  function SortByTime(xs: seq<Json>, newestFirst: bool): (r: seq<Json>)
    ensures |r| == |xs|
  {
    if xs == [] then []
    else Insert(xs[|xs| - 1], SortByTime(xs[..|xs| - 1], newestFirst), newestFirst)
  }

  /** Inserting adds the one element and loses none. */
  lemma {:induction false} InsertPermutes(x: Json, xs: seq<Json>, newestFirst: bool)
    ensures multiset(Insert(x, xs, newestFirst)) == multiset(xs) + multiset{x}
    decreases |xs|
  {
    if xs != [] && OrderKey(xs[0], newestFirst) <= OrderKey(x, newestFirst) {
      InsertPermutes(x, xs[1..], newestFirst);
      assert xs == [xs[0]] + xs[1..];
    }
  }

  /** The sort is a permutation. */
  lemma {:induction false} SortPermutes(xs: seq<Json>, newestFirst: bool)
    ensures multiset(SortByTime(xs, newestFirst)) == multiset(xs)
    decreases |xs|
  {
    if xs != [] {
      var init, last := xs[..|xs| - 1], xs[|xs| - 1];
      SortPermutes(init, newestFirst);
      InsertPermutes(last, SortByTime(init, newestFirst), newestFirst);
      assert SortByTime(xs, newestFirst) == Insert(last, SortByTime(init, newestFirst), newestFirst);
      assert xs == init + [last];
      assert multiset(xs) == multiset(init) + multiset{last};
    }
  }

  /** The first element after an insertion is the new one or the old first. */
  lemma InsertFront(x: Json, xs: seq<Json>, newestFirst: bool)
    ensures Insert(x, xs, newestFirst)[0] == x || (xs != [] && Insert(x, xs, newestFirst)[0] == xs[0])
  {
  }

  /** Putting an element no later than the head in front keeps a sorted list sorted. */
  lemma ConsSorted(a: Json, rest: seq<Json>, newestFirst: bool)
    requires Sorted(rest, newestFirst)
    requires rest != [] ==> OrderKey(a, newestFirst) <= OrderKey(rest[0], newestFirst)
    ensures Sorted([a] + rest, newestFirst)
  {
    var r := [a] + rest;
    forall i | 0 <= i < |r| - 1
      ensures OrderKey(r[i], newestFirst) <= OrderKey(r[i + 1], newestFirst)
    {
      if i > 0 {
        assert r[i] == rest[i - 1] && r[i + 1] == rest[i];
      }
    }
  }

  lemma {:induction false} InsertSorted(x: Json, xs: seq<Json>, newestFirst: bool)
    requires Sorted(xs, newestFirst)
    ensures Sorted(Insert(x, xs, newestFirst), newestFirst)
    decreases |xs|
  {
    if xs != [] && OrderKey(xs[0], newestFirst) <= OrderKey(x, newestFirst) {
      var t := xs[1..];
      assert Sorted(t, newestFirst);
      InsertSorted(x, t, newestFirst);
      var rest := Insert(x, t, newestFirst);
      InsertFront(x, t, newestFirst);
      assert t != [] ==> t[0] == xs[1];
      ConsSorted(xs[0], rest, newestFirst);
    } else if xs != [] {
      ConsSorted(x, xs, newestFirst);
    }
  }

  lemma {:induction false} SortSorted(xs: seq<Json>, newestFirst: bool)
    ensures Sorted(SortByTime(xs, newestFirst), newestFirst)
    decreases |xs|
  {
    if xs != [] {
      SortSorted(xs[..|xs| - 1], newestFirst);
      InsertSorted(xs[|xs| - 1], SortByTime(xs[..|xs| - 1], newestFirst), newestFirst);
    }
  }

  /** `getAllSaves`: the stored records, newest first */
  function AllSaves(es: seq<Entry>, sk: string): seq<Json> {
    SortByTime(Records(es, sk), true)
  }

  /** `getAllSaves` lists exactly the stored valid records, newest first. */
  lemma AllSavesNewestFirst(es: seq<Entry>, sk: string)
    ensures multiset(AllSaves(es, sk)) == multiset(Records(es, sk))
    ensures forall x :: x in AllSaves(es, sk) ==> SaveData.IsValidSave(x)
    ensures forall i, j :: 0 <= i < j < |AllSaves(es, sk)| ==>
      SaveTime(AllSaves(es, sk)[i]) >= SaveTime(AllSaves(es, sk)[j])
  {
    var r := AllSaves(es, sk);
    SortPermutes(Records(es, sk), true);
    SortSorted(Records(es, sk), true);
    SortedAll(r, true);
    RecordsValid(es, sk);
    forall x | x in r
      ensures SaveData.IsValidSave(x)
    {
      assert x in multiset(r);
    }
  }

  /** After sorting oldest first, the head is a listed save no other save predates. */
  lemma OldestFirst(saves: seq<Json>)
    requires saves != []
    ensures SortByTime(saves, false)[0] in saves
    ensures forall x :: x in saves ==> SaveTime(SortByTime(saves, false)[0]) <= SaveTime(x)
  {
    var s := SortByTime(saves, false);
    SortPermutes(saves, false);
    SortSorted(saves, false);
    SortedAll(s, false);
    assert s[0] in multiset(s);
    forall x | x in saves
      ensures SaveTime(s[0]) <= SaveTime(x)
    {
      assert x in multiset(s);
      var j :| 0 <= j < |s| && s[j] == x;
    }
  }

  // -------------------------------------------------------------- saving

  /**
   * `{...data, lastSaveTime: now, saveCount: (data.saveCount || 0) + 1}`
   */
  function Stamp(data: Json, now: int): (r: Json)
    requires data.JObj?
    ensures r.JObj? && Get(r, "lastSaveTime") == Some(JNum(now))
    ensures Get(data, "saveCount") == None || Get(data, "saveCount") == Some(JNum(0)) ==> Get(r, "saveCount") == Some(JNum(1))
    ensures forall n :: n != 0 && Get(data, "saveCount") == Some(JNum(n)) ==> Get(r, "saveCount") == Some(JNum(n + 1))
    ensures forall k :: k != "lastSaveTime" && k != "saveCount" ==> Get(r, k) == Get(data, k)
  {
    PutField(PutField(data, "lastSaveTime", JNum(now)), "saveCount", PlusOne(Or(Get(data, "saveCount"), JNum(0))))
  }

  /** `save.playerName === data.playerName && save.currentDay === data.currentDay` */
  predicate SameSlot(a: Json, b: Json) {
    Get(a, "playerName") == Get(b, "playerName") && Get(a, "currentDay") == Get(b, "currentDay")
  }

  /** `saves.findIndex(...)` for the slot of `data` */
  function FindSave(saves: seq<Json>, data: Json): (r: int)
    ensures -1 <= r < |saves|
    ensures r >= 0 ==> SameSlot(saves[r], data) && forall i :: 0 <= i < r ==> !SameSlot(saves[i], data)
    ensures r < 0 ==> forall i :: 0 <= i < |saves| ==> !SameSlot(saves[i], data)
  {
    if saves == [] then -1
    else if SameSlot(saves[0], data) then 0
    else
      var t := FindSave(saves[1..], data);
      if t < 0 then -1 else t + 1
  }

  /** `saves.shift()` */
  function Shift(xs: seq<Json>): seq<Json> {
    if xs == [] then [] else xs[1..]
  }

  /**
   * The list `save` hands to `updateSaveIndex`: oldest dropped when the
   * slots are full, then `rec` in its slot's place or appended.
   */
  function Listed(saves: seq<Json>, max: int, data: Json, rec: Json): (r: seq<Json>)
    ensures rec in r
    ensures 1 <= max && |saves| <= max ==> |r| <= max
  {
    var kept := if |saves| >= max then Shift(SortByTime(saves, false)) else saves;
    var i := FindSave(kept, data);
    if i >= 0 then
      assert kept[i := rec][i] == rec;
      kept[i := rec]
    else kept + [rec]
  }

  const IndexFields: seq<string> := ["playerName", "currentDay", "lastSaveTime", "saveCount"]

  function Present(v: Json, ks: seq<string>): (r: seq<string>)
    ensures forall k :: k in r <==> k in ks && Get(v, k).Some?
  {
    if ks == [] then [] else (if Get(v, ks[0]).Some? then [ks[0]] else []) + Present(v, ks[1..])
  }

  /**
   * One element of the index: `playerName`, `currentDay`, `lastSaveTime`
   * and `saveCount` of the record, as `JSON.stringify` leaves them (a
   * member that is `undefined` is not written).
   */
  function IndexEntry(v: Json): (r: Json)
    ensures r.JObj?
    ensures forall k :: k in IndexFields ==> Get(r, k) == Get(v, k)
    ensures forall k :: k !in IndexFields ==> Get(r, k).None?
  {
    var ks := Present(v, IndexFields);
    JObj(ks, map k | k in ks :: Get(v, k).value)
  }

  /** What `updateSaveIndex(saves)` writes under the index key */
  function IndexValue(saves: seq<Json>): (r: Json)
    ensures r.JArr? && |r.items| == |saves|
  {
    JArr(seq(|saves|, i requires 0 <= i < |saves| => IndexEntry(saves[i])))
  }

  /**
   * The storage after `save(data)` as the source writes it: the oldest
   * record leaves the index list only, and stays in storage.
   */
  function Saved(es: seq<Entry>, sk: string, max: int, data: Json, now: int): (r: seq<Entry>)
    requires SaveData.IsValidSave(data)
    ensures Entry(RecordKey(sk, data), Written(Stamp(data, now))) in r
    ensures forall e :: e in r ==> e in es || e.key == RecordKey(sk, data) || e.key == IndexKey(sk)
  {
    RecordKeyNotIndex(sk, data);
    Commit(es, sk, data, now, IndexValue(Listed(AllSaves(es, sk), max, data, Stamp(data, now))))
  }

  /** The last two steps of `save`: the stamped record under its key, then the index */
  function Commit(es: seq<Entry>, sk: string, data: Json, now: int, index: Json): seq<Entry>
    requires data.JObj?
  {
    Put(Put(es, RecordKey(sk, data), Written(Stamp(data, now))), IndexKey(sk), Written(index))
  }

  /**
   * The eviction the comment in `save` announces: when the slots are
   * full, the oldest record is removed from storage.
   */
  function Evict(es: seq<Entry>, sk: string, max: int): seq<Entry> {
    var saves := AllSaves(es, sk);
    if |saves| >= max && saves != [] then Remove(es, RecordKey(sk, SortByTime(saves, false)[0])) else es
  }

  /**
   * The storage after `save(data)` with that eviction: the oldest record
   * leaves storage as well as the index list.
   */
  function SavedEvicting(es: seq<Entry>, sk: string, max: int, data: Json, now: int): (r: seq<Entry>)
    requires SaveData.IsValidSave(data)
    ensures Entry(RecordKey(sk, data), Written(Stamp(data, now))) in r
    ensures forall e :: e in r ==> e in es || e.key == RecordKey(sk, data) || e.key == IndexKey(sk)
  {
    RecordKeyNotIndex(sk, data);
    Commit(Evict(es, sk, max), sk, data, now, IndexValue(Listed(AllSaves(es, sk), max, data, Stamp(data, now))))
  }

  // ------------------------------------------------- loading and clearing

  /**
   * `load(name, day)`: nothing for a missing or empty item or text that
   * does not parse, the record when it validates, and otherwise what
   * recovery makes of it.
   */
  function Loaded(es: seq<Entry>, sk: string, name: string, day: int, now: int): (r: Option<Json>)
    ensures r.Some? ==> SaveData.IsValidSave(r.value)
  {
    match Lookup(es, SaveKey(sk, name, day))
    case None => None
    case Some(s) =>
      if s.text == "" || s.parsed.None? then None
      else if SaveData.IsValidSave(s.parsed.value) then s.parsed
      else SaveData.Recover(s.parsed.value, now)
  }

  /** `save.playerName === playerName && save.currentDay === day` */
  predicate InSlot(x: Json, name: string, day: int) {
    Get(x, "playerName") == Some(JStr(name)) && Get(x, "currentDay") == Some(JNum(day))
  }

  /** `saves.filter(save => !(...))` for one player and day */
  function Unlisted(saves: seq<Json>, name: string, day: int): (r: seq<Json>)
    ensures forall x :: x in r <==> x in saves && !InSlot(x, name, day)
  {
    if saves == [] then []
    else
      var init, last := saves[..|saves| - 1], saves[|saves| - 1];
      Sequences.FrontLast(saves);
      Unlisted(init, name, day) + (if InSlot(last, name, day) then [] else [last])
  }

  /** The storage after `clear(name, day)`: entries are only removed, apart from the rewritten index */
  function Cleared(es: seq<Entry>, sk: string, name: string, day: int): (r: seq<Entry>)
    ensures forall e :: e in r ==> e in es || e.key == IndexKey(sk)
  {
    var es1 := Remove(es, SaveKey(sk, name, day));
    Put(es1, IndexKey(sk), Written(IndexValue(Unlisted(AllSaves(es1, sk), name, day))))
  }

  /** The entries that are not under a save key */
  function NonSaves(es: seq<Entry>, sk: string): seq<Entry> {
    if es == [] then []
    else NonSaves(es[..|es| - 1], sk) + (if IsSaveKey(sk, es[|es| - 1].key) then [] else [es[|es| - 1]])
  }

  /** The entries whose key is not one of `ks` */
  function Drop(es: seq<Entry>, ks: seq<string>): seq<Entry> {
    if es == [] then []
    else Drop(es[..|es| - 1], ks) + (if es[|es| - 1].key in ks then [] else [es[|es| - 1]])
  }

  /**
   * `getStorageUsage`'s count: key and text lengths of the entries where
   * both are non-empty; it is 0 exactly when no entry has both.
   */
  function Usage(es: seq<Entry>): (r: nat)
    ensures r == 0 <==> forall i :: 0 <= i < |es| ==> es[i].key == "" || es[i].value.text == ""
  {
    if es == [] then 0
    else
      var e := es[|es| - 1];
      Usage(es[..|es| - 1]) + (if e.key != "" && e.value.text != "" then |e.key| + |e.value.text| else 0)
  }

  /** Every record is stored under the key `save` writes it under. */
  predicate WellKeyed(es: seq<Entry>, sk: string) {
    forall e :: e in es && IsRecordEntry(sk, e) ==> e.key == RecordKey(sk, RecordOf(e.value).value)
  }

  // --------------------------------------------------------- the manager

  class StorageManager {
    const config: StorageConfig
    const storage: LocalStorage

    constructor (config: StorageConfig, storage: LocalStorage)
      ensures this.config == config && this.storage == storage
    {
      this.config := config;
      this.storage := storage;
    }

    /** `getSaveKeys` */
    method GetSaveKeys() returns (keys: seq<string>)
      ensures keys == SaveKeys(storage.entries, config.storageKey)
    {
      var es := storage.entries;
      keys := [];
      for i := 0 to storage.Length()
        invariant keys == SaveKeys(es[..i], config.storageKey)
      {
        Sequences.TakeOneMore(es, i);
        var key := storage.Key(i);
        if key.Some? && key.value != "" && JsText.StartsWith(key.value, config.storageKey + "_") {
          keys := keys + [key.value];
        }
      }
      Sequences.TakeAll(es);
    }

    /** `getAllSaves` */
    method GetAllSaves() returns (saves: seq<Json>)
      requires storage.Valid()
      ensures saves == AllSaves(storage.entries, config.storageKey)
    {
      var keys := GetSaveKeys();
      saves := [];
      for i := 0 to |keys|
        invariant saves == RecordsAt(storage.entries, keys[..i])
      {
        Sequences.TakeOneMore(keys, i);
        var data := storage.GetItem(keys[i]);
        if data.Some? && data.value.text != "" && data.value.parsed.Some? {
          var ok := SaveData.Validate(data.value.parsed.value);
          if ok {
            saves := saves + [data.value.parsed.value];
          }
        }
      }
      Sequences.TakeAll(keys);
      RecordsAtSaveKeys(storage.entries, config.storageKey);
      saves := SortByTime(saves, true);
    }

    /** `updateSaveIndex` */
    method UpdateSaveIndex(saves: seq<Json>)
      requires storage.Valid()
      modifies storage
      ensures storage.Valid()
      ensures storage.entries == Put(old(storage.entries), IndexKey(config.storageKey), Written(IndexValue(saves)))
    {
      storage.SetItem(config.storageKey + "_index", Written(IndexValue(saves)));
    }

    /**
     * The first step of `save`: with the slots full, the oldest save
     * leaves the list, and its record leaves storage.
     */
    method EvictOldest(saves: seq<Json>) returns (kept: seq<Json>)
      requires storage.Valid() && saves == AllSaves(storage.entries, config.storageKey)
      modifies storage
      ensures storage.Valid()
      ensures storage.entries == Evict(old(storage.entries), config.storageKey, config.maxSaveSlots)
      ensures kept == if |saves| >= config.maxSaveSlots then Shift(SortByTime(saves, false)) else saves
    {
      kept := saves;
      if |saves| >= config.maxSaveSlots {
        var byAge := SortByTime(saves, false);
        if saves != [] {
          storage.RemoveItem(RecordKey(config.storageKey, byAge[0]));
        }
        kept := Shift(byAge);
      }
    }

    /**
     * `save(data)` at time `now`, evicting the oldest record from storage
     * when the slots are full.  An invalid record changes nothing.
     */
    method Save(data: Json, now: int) returns (ok: bool)
      requires storage.Valid()
      modifies storage
      ensures storage.Valid()
      ensures ok <==> SaveData.IsValidSave(data)
      ensures ok ==> storage.entries == SavedEvicting(old(storage.entries), config.storageKey, config.maxSaveSlots, data, now)
      ensures !ok ==> storage.entries == old(storage.entries)
    {
      ok := SaveData.Validate(data);
      if !ok {
        return;
      }
      var saves := GetAllSaves();
      var kept := EvictOldest(saves);
      var saveData := Stamp(data, now);
      storage.SetItem(RecordKey(config.storageKey, data), Written(saveData));
      var i := FindSave(kept, data);
      if i >= 0 {
        kept := kept[i := saveData];
      } else {
        kept := kept + [saveData];
      }
      assert kept == Listed(saves, config.maxSaveSlots, data, saveData);
      UpdateSaveIndex(kept);
    }

    /** `load(playerName, day)` at time `now` */
    method Load(playerName: string, day: int, now: int) returns (r: Option<Json>)
      ensures r == Loaded(storage.entries, config.storageKey, playerName, day, now)
    {
      var data := storage.GetItem(config.storageKey + "_" + playerName + "_" + JsText.NumText(day));
      if data.None? || data.value.text == "" || data.value.parsed.None? {
        return None;
      }
      var parsed := data.value.parsed.value;
      var ok := SaveData.Validate(parsed);
      if !ok {
        return SaveData.Recover(parsed, now);
      }
      return Some(parsed);
    }

    /** `clear(playerName, day)` */
    method Clear(playerName: string, day: int) returns (ok: bool)
      requires storage.Valid()
      modifies storage
      ensures storage.Valid()
      ensures ok && storage.entries == Cleared(old(storage.entries), config.storageKey, playerName, day)
    {
      storage.RemoveItem(SaveKey(config.storageKey, playerName, day));
      var saves := GetAllSaves();
      UpdateSaveIndex(Unlisted(saves, playerName, day));
      return true;
    }

    /** `keys.forEach(key => localStorage.removeItem(key))` */
    method RemoveKeys(keys: seq<string>)
      requires storage.Valid()
      modifies storage
      ensures storage.Valid()
      ensures storage.entries == Drop(old(storage.entries), keys)
    {
      ghost var es0 := storage.entries;
      DropNone(es0, []);
      for i := 0 to |keys|
        invariant storage.Valid()
        invariant storage.entries == Drop(es0, keys[..i])
      {
        ghost var before := storage.entries;
        storage.RemoveItem(keys[i]);
        assert storage.entries == Drop(es0, keys[..i + 1]) by {
          assert storage.entries == Remove(before, keys[i]);
          ClearStep(es0, keys[..i], keys[i]);
          Sequences.TakeOneMore(keys, i);
        }
      }
      Sequences.TakeAll(keys);
    }

    /** `clearAll()`: every save key and then the index go */
    method ClearAll() returns (ok: bool)
      requires storage.Valid()
      modifies storage
      ensures storage.Valid()
      ensures ok && storage.entries == NonSaves(old(storage.entries), config.storageKey)
    {
      var keys := GetSaveKeys();
      RemoveKeys(keys);
      ClearAllEnd(old(storage.entries), config.storageKey);
      storage.RemoveItem(IndexKey(config.storageKey));
      return true;
    }

    /** `getStorageUsage` */
    method GetStorageUsage() returns (used: nat, remaining: nat, total: nat)
      requires storage.Valid()
      ensures used == Usage(storage.entries)
      ensures total == StorageTotal
      ensures remaining == if used <= total then total - used else 0
    {
      var es := storage.entries;
      used := 0;
      for i := 0 to storage.Length()
        invariant used == Usage(es[..i])
      {
        Sequences.TakeOneMore(es, i);
        var key := storage.Key(i);
        if key.Some? && key.value != "" {
          FindUnique(es, key.value, i);
          var value := storage.GetItem(key.value);
          if value.Some? && value.value.text != "" {
            used := used + |key.value| + |value.value.text|;
          }
        }
      }
      Sequences.TakeAll(es);
      total := 5 * 1024 * 1024;
      remaining := if used <= total then total - used else 0;
    }
  }

  // ---------------------------------------------- lemmas about the lists

  lemma {:induction false} RecordsAppend(a: seq<Entry>, b: seq<Entry>, sk: string)
    ensures Records(a + b, sk) == Records(a, sk) + Records(b, sk)
    decreases |b|
  {
    if b == [] {
      assert a + b == a;
    } else {
      var init, last := b[..|b| - 1], b[|b| - 1];
      assert (a + b)[..|a + b| - 1] == a + init;
      RecordsAppend(a, init, sk);
    }
  }

  lemma RecordsSingle(e: Entry, sk: string)
    ensures Records([e], sk) == RecordAt(sk, e)
  {
    assert [e][..0] == [];
  }

  /** Where a listed record comes from */
  lemma {:induction false} RecordSource(es: seq<Entry>, sk: string, x: Json) returns (i: nat)
    requires x in Records(es, sk)
    ensures i < |es| && IsRecordEntry(sk, es[i]) && RecordOf(es[i].value) == Some(x)
    decreases |es|
  {
    var init := es[..|es| - 1];
    if x in Records(init, sk) {
      i := RecordSource(init, sk, x);
    } else {
      i := |es| - 1;
    }
  }

  lemma {:induction false} RecordsValid(es: seq<Entry>, sk: string)
    ensures forall x :: x in Records(es, sk) ==> SaveData.IsValidSave(x)
    decreases |es|
  {
    if es != [] {
      RecordsValid(es[..|es| - 1], sk);
    }
  }

  lemma {:induction false} SaveKeysSound(es: seq<Entry>, sk: string)
    ensures forall k :: k in SaveKeys(es, sk) ==> IsSaveKey(sk, k) && Find(es, k) >= 0
    decreases |es|
  {
    if es != [] {
      SaveKeysSound(es[..|es| - 1], sk);
    }
  }

  lemma {:induction false} SaveKeysComplete(es: seq<Entry>, sk: string)
    ensures forall e :: e in es && IsSaveKey(sk, e.key) ==> e.key in SaveKeys(es, sk)
    decreases |es|
  {
    if es != [] {
      var init := es[..|es| - 1];
      SaveKeysComplete(init, sk);
      assert es == init + [es[|es| - 1]];
    }
  }

  lemma {:induction false} RecordsAtAppend(es: seq<Entry>, ks: seq<string>, k: string)
    ensures RecordsAt(es, ks + [k]) == RecordsAt(es, ks) + RecordUnder(es, k)
  {
    Sequences.TakeFront(ks, [k]);
  }

  /** With distinct keys, a key stored before the last entry reads the same without it. */
  lemma LookupInit(es: seq<Entry>, k: string)
    requires DistinctKeys(es) && es != [] && Find(es[..|es| - 1], k) >= 0
    ensures Lookup(es, k) == Lookup(es[..|es| - 1], k)
  {
    var init := es[..|es| - 1];
    assert es[Find(init, k)] == init[Find(init, k)];
    LookupSplit(es, k);
  }

  lemma {:induction false} RecordsAtInit(es: seq<Entry>, ks: seq<string>)
    requires DistinctKeys(es) && es != []
    requires forall k :: k in ks ==> Find(es[..|es| - 1], k) >= 0
    ensures RecordsAt(es, ks) == RecordsAt(es[..|es| - 1], ks)
    decreases |ks|
  {
    if ks != [] {
      var t := ks[..|ks| - 1];
      assert forall k :: k in t ==> k in ks;
      RecordsAtInit(es, t);
      assert ks[|ks| - 1] in ks;
      LookupInit(es, ks[|ks| - 1]);
    }
  }

  /** Reading the records key by key, as `getAllSaves` does, gives the stored records in order. */
  lemma {:induction false} RecordsAtSaveKeys(es: seq<Entry>, sk: string)
    requires DistinctKeys(es)
    ensures RecordsAt(es, SaveKeys(es, sk)) == Records(es, sk)
    decreases |es|
  {
    if es != [] {
      var init, last := es[..|es| - 1], es[|es| - 1];
      RecordsAtSaveKeys(init, sk);
      SaveKeysSound(init, sk);
      RecordsAtInit(es, SaveKeys(init, sk));
      LookupSplit(es, last.key);
      if IsSaveKey(sk, last.key) {
        RecordsAtAppend(es, SaveKeys(init, sk), last.key);
      } else {
        Sequences.AppendEmpty(SaveKeys(init, sk));
        Sequences.AppendEmpty(Records(init, sk));
      }
    }
  }

  lemma {:induction false} DropNone(es: seq<Entry>, ks: seq<string>)
    requires forall i :: 0 <= i < |es| ==> es[i].key !in ks
    ensures Drop(es, ks) == es
    decreases |es|
  {
    if es != [] {
      DropNone(es[..|es| - 1], ks);
    }
  }

  lemma SpliceLast(es: seq<Entry>, i: int)
    requires 0 <= i < |es| - 1
    ensures es[..i] + es[i + 1..] == es[..|es| - 1][..i] + es[..|es| - 1][i + 1..] + [es[|es| - 1]]
  {
  }

  /** Removing the last key leaves the entries before it. */
  lemma RemoveLast(es: seq<Entry>)
    requires es != []
    ensures Remove(es, es[|es| - 1].key) == es[..|es| - 1]
  {
  }

  /** Removing a key other than the last one removes it from the entries before the last. */
  lemma RemoveBeforeLast(es: seq<Entry>, k: string)
    requires es != [] && es[|es| - 1].key != k
    ensures Remove(es, k) == Remove(es[..|es| - 1], k) + [es[|es| - 1]]
  {
    var init := es[..|es| - 1];
    var i := Find(init, k);
    assert Find(es, k) == i;
    if i >= 0 {
      SpliceLast(es, i);
    } else {
      Sequences.FrontLast(es);
    }
  }

  /** With distinct keys, `removeItem(k)` drops exactly the entries keyed `k`. */
  lemma {:induction false} RemoveIsDrop(es: seq<Entry>, k: string)
    requires DistinctKeys(es)
    ensures Remove(es, k) == Drop(es, [k])
    decreases |es|
  {
    if es != [] {
      var init, last := es[..|es| - 1], es[|es| - 1];
      if last.key == k {
        DropNone(init, [k]);
        Sequences.AppendEmpty(init);
        RemoveLast(es);
      } else {
        assert DistinctKeys(init);
        RemoveIsDrop(init, k);
        assert last.key !in [k];
        RemoveBeforeLast(es, k);
      }
    }
  }

  lemma {:induction false} DropAppend(es: seq<Entry>, ks: seq<string>, k: string)
    ensures Drop(Drop(es, ks), [k]) == Drop(es, ks + [k])
    decreases |es|
  {
    if es != [] {
      var init, last := es[..|es| - 1], es[|es| - 1];
      DropAppend(init, ks, k);
      var d := Drop(init, ks);
      assert last.key in ks + [k] <==> last.key in ks || last.key == k;
      if last.key !in ks {
        Sequences.TakeFront(d, [last]);
      } else {
        Sequences.AppendEmpty(d);
      }
    }
  }

  /** One step of the loop in `clearAll` */
  lemma ClearStep(es: seq<Entry>, ks: seq<string>, k: string)
    requires DistinctKeys(Drop(es, ks))
    ensures Remove(Drop(es, ks), k) == Drop(es, ks + [k])
  {
    RemoveIsDrop(Drop(es, ks), k);
    DropAppend(es, ks, k);
  }

  /** Removing every save key and then the index key leaves the entries under other keys. */
  lemma ClearAllEnd(es: seq<Entry>, sk: string)
    ensures Remove(Drop(es, SaveKeys(es, sk)), IndexKey(sk)) == NonSaves(es, sk)
  {
    SaveKeysComplete(es, sk);
    SaveKeysSound(es, sk);
    DropSaveKeys(es, SaveKeys(es, sk), sk);
    var n := NonSaves(es, sk);
    NonSavesMembers(es, sk);
    Prefixed(sk, "index");
    forall j | 0 <= j < |n|
      ensures n[j].key != IndexKey(sk)
    {
      assert n[j] in n;
    }
    assert Find(n, IndexKey(sk)) < 0;
  }

  lemma {:induction false} NonSavesMembers(es: seq<Entry>, sk: string)
    ensures forall e :: e in NonSaves(es, sk) <==> e in es && !IsSaveKey(sk, e.key)
    decreases |es|
  {
    if es != [] {
      var init, last := es[..|es| - 1], es[|es| - 1];
      NonSavesMembers(init, sk);
      Sequences.FrontLast(es);
    }
  }

  lemma {:induction false} DropSaveKeys(es: seq<Entry>, ks: seq<string>, sk: string)
    requires forall e :: e in es ==> (e.key in ks <==> IsSaveKey(sk, e.key))
    ensures Drop(es, ks) == NonSaves(es, sk)
    decreases |es|
  {
    if es != [] {
      var init := es[..|es| - 1];
      assert forall e :: e in init ==> e in es;
      DropSaveKeys(init, ks, sk);
    }
  }

  /** Counting records across `setItem`: the entry replaced leaves the count, the new one joins it. */
  lemma PutCount(es: seq<Entry>, sk: string, k: string, v: Stored)
    ensures
      var i := Find(es, k);
      |Records(Put(es, k, v), sk)| + (if i >= 0 && IsRecordEntry(sk, es[i]) then 1 else 0)
      == |Records(es, sk)| + (if IsRecordEntry(sk, Entry(k, v)) then 1 else 0)
  {
    var i := Find(es, k);
    RecordsSingle(Entry(k, v), sk);
    if i < 0 {
      RecordsAppend(es, [Entry(k, v)], sk);
    } else {
      RecordsSingle(es[i], sk);
      assert es == es[..i] + [es[i]] + es[i + 1..];
      assert Put(es, k, v) == es[..i] + [Entry(k, v)] + es[i + 1..];
      RecordsAppend(es[..i] + [es[i]], es[i + 1..], sk);
      RecordsAppend(es[..i], [es[i]], sk);
      RecordsAppend(es[..i] + [Entry(k, v)], es[i + 1..], sk);
      RecordsAppend(es[..i], [Entry(k, v)], sk);
    }
  }

  /** Counting records across `removeItem`: only the entry removed leaves the count. */
  lemma RemoveCount(es: seq<Entry>, sk: string, k: string)
    ensures
      var i := Find(es, k);
      |Records(Remove(es, k), sk)| + (if i >= 0 && IsRecordEntry(sk, es[i]) then 1 else 0) == |Records(es, sk)|
  {
    var i := Find(es, k);
    if i >= 0 {
      RecordsSingle(es[i], sk);
      assert es == es[..i] + [es[i]] + es[i + 1..];
      RecordsAppend(es[..i] + [es[i]], es[i + 1..], sk);
      RecordsAppend(es[..i], [es[i]], sk);
      RecordsAppend(es[..i], es[i + 1..], sk);
    }
  }

  lemma WellKeyedNotIndex(es: seq<Entry>, sk: string)
    requires WellKeyed(es, sk)
    ensures forall e :: e in es && IsRecordEntry(sk, e) ==> e.key != IndexKey(sk)
  {
    forall e | e in es && IsRecordEntry(sk, e)
      ensures e.key != IndexKey(sk)
    {
      RecordKeyNotIndex(sk, RecordOf(e.value).value);
    }
  }

  // ------------------------------------------------ lemmas about saving

  /**
   * The record `save` writes is valid again, in the same slot, stamped
   * with the time, and its save count is one more than before (or 1).
   */
  lemma StampKeepsValid(data: Json, now: int)
    requires SaveData.IsValidSave(data)
    ensures SaveData.IsValidSave(Stamp(data, now))
    ensures SameSlot(Stamp(data, now), data)
    ensures RecordKey("", Stamp(data, now)) == RecordKey("", data)
    ensures SaveTime(Stamp(data, now)) == now
    ensures Get(data, "saveCount") == Some(JNum(0)) || Get(data, "saveCount").None? ==>
      Get(Stamp(data, now), "saveCount") == Some(JNum(1))
    ensures forall n :: Get(data, "saveCount") == Some(JNum(n)) ==>
      Get(Stamp(data, now), "saveCount") == Some(JNum(n + 1))
  {
    var r := Stamp(data, now);
    forall i | 0 <= i < |SaveData.RequiredFields|
      ensures Get(r, SaveData.RequiredFields[i]).Some?
    {
      assert Get(data, SaveData.RequiredFields[i]).Some?;
    }
  }

  lemma StampKey(sk: string, data: Json, now: int)
    requires SaveData.IsValidSave(data)
    ensures RecordKey(sk, Stamp(data, now)) == RecordKey(sk, data)
  {
    StampKeepsValid(data, now);
  }

  /** After the last two steps of `save`, the record's key holds the stamped record; other players and days read as before. */
  lemma CommitLookup(es: seq<Entry>, sk: string, data: Json, now: int, index: Json, name: string, day: int)
    requires DistinctKeys(es) && SaveData.IsValidSave(data)
    ensures Lookup(Commit(es, sk, data, now, index), SaveKey(sk, name, day))
      == if SaveKey(sk, name, day) == RecordKey(sk, data) then Some(Written(Stamp(data, now)))
         else Lookup(es, SaveKey(sk, name, day))
  {
    var k := SaveKey(sk, name, day);
    var es1 := Put(es, RecordKey(sk, data), Written(Stamp(data, now)));
    PutDistinct(es, RecordKey(sk, data), Written(Stamp(data, now)));
    SaveKeyNotIndex(sk, name, day);
    PutLookup(es1, IndexKey(sk), Written(index), k);
    PutLookup(es, RecordKey(sk, data), Written(Stamp(data, now)), k);
  }

  /**
   * Counting records across the last two steps of `save`: the record
   * joins the count, replacing the one under its key if there was one;
   * the index, which is no record, changes nothing.
   */
  lemma CommitCount(es: seq<Entry>, sk: string, data: Json, now: int, index: Json)
    requires DistinctKeys(es) && WellKeyed(es, sk) && SaveData.IsValidSave(data) && index.JArr?
    ensures DistinctKeys(Commit(es, sk, data, now, index)) && WellKeyed(Commit(es, sk, data, now, index), sk)
    ensures
      var i := Find(es, RecordKey(sk, data));
      |Records(Commit(es, sk, data, now, index), sk)| + (if i >= 0 && IsRecordEntry(sk, es[i]) then 1 else 0)
      == |Records(es, sk)| + 1
  {
    PutRecordCount(es, sk, data, now);
    PutIndexCount(Put(es, RecordKey(sk, data), Written(Stamp(data, now))), sk, index);
  }

  /** Writing the stamped record adds it to the count, less the record it replaces. */
  lemma PutRecordCount(es: seq<Entry>, sk: string, data: Json, now: int)
    requires DistinctKeys(es) && WellKeyed(es, sk) && SaveData.IsValidSave(data)
    ensures
      var r := Put(es, RecordKey(sk, data), Written(Stamp(data, now)));
      var i := Find(es, RecordKey(sk, data));
      && DistinctKeys(r) && WellKeyed(r, sk)
      && |Records(r, sk)| + (if i >= 0 && IsRecordEntry(sk, es[i]) then 1 else 0) == |Records(es, sk)| + 1
  {
    var rec := Stamp(data, now);
    var k := RecordKey(sk, data);
    StampedIsRecord(sk, data, now);
    PutWellKeyed(es, sk, k, Written(rec));
    PutCount(es, sk, k, Written(rec));
    PutDistinct(es, k, Written(rec));
  }

  /** The entry `save` writes is a record entry, stored under its own key. */
  lemma StampedIsRecord(sk: string, data: Json, now: int)
    requires SaveData.IsValidSave(data)
    ensures var e := Entry(RecordKey(sk, data), Written(Stamp(data, now)));
      IsRecordEntry(sk, e) && e.key == RecordKey(sk, RecordOf(e.value).value)
  {
    var r := Stamp(data, now);
    StampKeepsValid(data, now);
    StampKey(sk, data, now);
    assert RecordOf(Written(r)) == Some(r);
    RecordKeyIsSaveKey(sk, data);
  }

  lemma RecordKeyIsSaveKey(sk: string, v: Json)
    ensures IsSaveKey(sk, RecordKey(sk, v))
  {
    Sequences.TakeFrontOfFour(sk + "_", FieldText(v, "playerName"), "_", FieldText(v, "currentDay"));
  }

  /** Writing a record under its own key, or anything that is no record, keeps every record under its own key. */
  lemma PutWellKeyed(es: seq<Entry>, sk: string, k: string, v: Stored)
    requires WellKeyed(es, sk)
    requires IsRecordEntry(sk, Entry(k, v)) ==> k == RecordKey(sk, RecordOf(v).value)
    ensures WellKeyed(Put(es, k, v), sk)
  {
  }

  /** Writing the index, which is no record, leaves the count and the keying as they were. */
  lemma PutIndexCount(es: seq<Entry>, sk: string, index: Json)
    requires DistinctKeys(es) && WellKeyed(es, sk) && index.JArr?
    ensures
      var r := Put(es, IndexKey(sk), Written(index));
      DistinctKeys(r) && WellKeyed(r, sk) && |Records(r, sk)| == |Records(es, sk)|
  {
    assert !SaveData.IsValidSave(index);
    WellKeyedNotIndex(es, sk);
    var i := Find(es, IndexKey(sk));
    if i >= 0 {
      assert es[i] in es;
    }
    PutCount(es, sk, IndexKey(sk), Written(index));
    PutDistinct(es, IndexKey(sk), Written(index));
  }

  /** `load` depends only on what is stored under its key. */
  lemma LoadedSame(a: seq<Entry>, b: seq<Entry>, sk: string, name: string, day: int, now: int)
    requires Lookup(a, SaveKey(sk, name, day)) == Lookup(b, SaveKey(sk, name, day))
    ensures Loaded(a, sk, name, day, now) == Loaded(b, sk, name, day, now)
  {
  }

  /** A save can be loaded back, as written, at any later time. */
  lemma LoadAfterSave(es: seq<Entry>, sk: string, max: int, data: Json, now: int, later: int)
    requires DistinctKeys(es) && SaveData.IsValidSave(data)
    ensures Loaded(SavedEvicting(es, sk, max, data, now), sk,
      Get(data, "playerName").value.s, Get(data, "currentDay").value.n, later) == Some(Stamp(data, now))
  {
    var name, day := Get(data, "playerName").value.s, Get(data, "currentDay").value.n;
    var index := IndexValue(Listed(AllSaves(es, sk), max, data, Stamp(data, now)));
    EvictDistinct(es, sk, max);
    ValidRecordKey(sk, data);
    CommitLookup(Evict(es, sk, max), sk, data, now, index, name, day);
    StampKeepsValid(data, now);
  }

  /** Below the slot limit a save leaves every other player's and day's record as it was. */
  lemma SaveKeepsOtherSaves(es: seq<Entry>, sk: string, max: int, data: Json, now: int,
                            name: string, day: int, later: int)
    requires DistinctKeys(es) && SaveData.IsValidSave(data)
    requires |Records(es, sk)| < max
    requires SaveKey(sk, name, day) != RecordKey(sk, data)
    ensures Loaded(SavedEvicting(es, sk, max, data, now), sk, name, day, later) == Loaded(es, sk, name, day, later)
  {
    var index := IndexValue(Listed(AllSaves(es, sk), max, data, Stamp(data, now)));
    assert Evict(es, sk, max) == es;
    CommitLookup(es, sk, data, now, index, name, day);
    LoadedSame(SavedEvicting(es, sk, max, data, now), es, sk, name, day, later);
  }

  /**
   * As written, a save of a new player and day when the slots are full
   * still adds a record: `saves.shift()` trims only the index list, and
   * the oldest record stays in storage.
   */
  lemma SaveOverflows(es: seq<Entry>, sk: string, max: int, data: Json, now: int)
    requires DistinctKeys(es) && WellKeyed(es, sk) && SaveData.IsValidSave(data)
    requires Find(es, RecordKey(sk, data)) < 0
    ensures |Records(Saved(es, sk, max, data, now), sk)| == |Records(es, sk)| + 1
    ensures |Records(es, sk)| >= max ==> |Records(Saved(es, sk, max, data, now), sk)| > max
  {
    CommitCount(es, sk, data, now, IndexValue(Listed(AllSaves(es, sk), max, data, Stamp(data, now))));
  }

  /**
   * With the eviction in place, a save keeps the number of stored
   * records within the slot limit, and keeps every record under its own
   * key with keys distinct.
   */
  lemma SaveEvictingKeepsBound(es: seq<Entry>, sk: string, max: int, data: Json, now: int)
    requires DistinctKeys(es) && WellKeyed(es, sk) && SaveData.IsValidSave(data)
    requires 1 <= max && |Records(es, sk)| <= max
    ensures DistinctKeys(SavedEvicting(es, sk, max, data, now))
    ensures WellKeyed(SavedEvicting(es, sk, max, data, now), sk)
    ensures |Records(SavedEvicting(es, sk, max, data, now), sk)| <= max
  {
    EvictCount(es, sk, max);
    CommitCount(Evict(es, sk, max), sk, data, now, IndexValue(Listed(AllSaves(es, sk), max, data, Stamp(data, now))));
  }

  lemma EvictDistinct(es: seq<Entry>, sk: string, max: int)
    requires DistinctKeys(es)
    ensures DistinctKeys(Evict(es, sk, max))
  {
    var saves := AllSaves(es, sk);
    if |saves| >= max && saves != [] {
      RemoveDistinct(es, RecordKey(sk, SortByTime(saves, false)[0]));
    }
  }

  /** Eviction leaves at most one record fewer than the slots. */
  lemma EvictCount(es: seq<Entry>, sk: string, max: int)
    requires DistinctKeys(es) && WellKeyed(es, sk)
    requires 1 <= max && |Records(es, sk)| <= max
    ensures DistinctKeys(Evict(es, sk, max)) && WellKeyed(Evict(es, sk, max), sk)
    ensures |Records(Evict(es, sk, max), sk)| < max
  {
    var saves := AllSaves(es, sk);
    EvictDistinct(es, sk, max);
    if |saves| >= max && saves != [] {
      OldestStored(es, sk);
      RemoveCount(es, sk, RecordKey(sk, SortByTime(saves, false)[0]));
    }
  }

  /** When the slots hold records, the oldest one is stored, as a record, under its own key. */
  lemma OldestStored(es: seq<Entry>, sk: string)
    requires DistinctKeys(es) && WellKeyed(es, sk)
    requires Records(es, sk) != []
    ensures
      var oldest := SortByTime(AllSaves(es, sk), false)[0];
      var i := Find(es, RecordKey(sk, oldest));
      i >= 0 && IsRecordEntry(sk, es[i])
  {
    var saves := AllSaves(es, sk);
    var oldest := SortByTime(saves, false)[0];
    OldestFirst(saves);
    assert oldest in Records(es, sk) by {
      SortPermutes(Records(es, sk), true);
      assert oldest in multiset(saves);
    }
    var i := RecordSource(es, sk, oldest);
    assert es[i] in es;
    FindUnique(es, RecordKey(sk, oldest), i);
  }

  // ---------------------------------------------- lemmas about clearing

  /** After `clear(name, day)` that player's record for that day no longer loads. */
  lemma LoadAfterClear(es: seq<Entry>, sk: string, name: string, day: int, now: int)
    requires DistinctKeys(es)
    ensures Loaded(Cleared(es, sk, name, day), sk, name, day, now) == None
  {
    var k := SaveKey(sk, name, day);
    var es1 := Remove(es, k);
    RemoveDistinct(es, k);
    RemoveLookup(es, k, k);
    SaveKeyNotIndex(sk, name, day);
    PutLookup(es1, IndexKey(sk), Written(IndexValue(Unlisted(AllSaves(es1, sk), name, day))), k);
  }

  /** `clear` leaves every other player's and day's record as it was. */
  lemma ClearKeepsOtherSaves(es: seq<Entry>, sk: string, name: string, day: int,
                             name': string, day': int, now: int)
    requires DistinctKeys(es)
    requires SaveKey(sk, name', day') != SaveKey(sk, name, day)
    ensures Loaded(Cleared(es, sk, name, day), sk, name', day', now) == Loaded(es, sk, name', day', now)
  {
    var k, k' := SaveKey(sk, name, day), SaveKey(sk, name', day');
    var es1 := Remove(es, k);
    RemoveDistinct(es, k);
    RemoveLookup(es, k, k');
    SaveKeyNotIndex(sk, name', day');
    PutLookup(es1, IndexKey(sk), Written(IndexValue(Unlisted(AllSaves(es1, sk), name, day))), k');
  }

  lemma {:induction false} NoSaveKeys(es: seq<Entry>, sk: string)
    requires forall e :: e in es ==> !IsSaveKey(sk, e.key)
    ensures Records(es, sk) == [] && SaveKeys(es, sk) == []
    decreases |es|
  {
    if es != [] {
      var init := es[..|es| - 1];
      assert forall e :: e in init ==> e in es;
      assert es[|es| - 1] in es;
      NoSaveKeys(init, sk);
    }
  }

  lemma {:induction false} NonSavesUsage(es: seq<Entry>, sk: string)
    ensures Usage(NonSaves(es, sk)) <= Usage(es)
    decreases |es|
  {
    if es != [] {
      var init, last := es[..|es| - 1], es[|es| - 1];
      NonSavesUsage(init, sk);
      var n := NonSaves(init, sk);
      if !IsSaveKey(sk, last.key) {
        Sequences.TakeFront(n, [last]);
      } else {
        Sequences.AppendEmpty(n);
      }
    }
  }

  /**
   * After `clearAll` no save key and no record is left, every other
   * entry is kept, and the usage has not grown.
   */
  lemma ClearAllLeavesNoSaves(es: seq<Entry>, sk: string)
    ensures Records(NonSaves(es, sk), sk) == [] && SaveKeys(NonSaves(es, sk), sk) == []
    ensures forall e :: e in es && !IsSaveKey(sk, e.key) ==> e in NonSaves(es, sk)
    ensures Usage(NonSaves(es, sk)) <= Usage(es)
  {
    NonSavesMembers(es, sk);
    NoSaveKeys(NonSaves(es, sk), sk);
    NonSavesUsage(es, sk);
  }
}
