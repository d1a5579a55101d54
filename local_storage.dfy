/**
 * The browser's `localStorage` as the storage manager uses it: an
 * ordered list of string keys, each holding a string.  Next to its text an
 * entry keeps what `JSON.parse` makes of that text, so that "parsing what
 * `JSON.stringify` wrote gives the value back" is part of the model rather
 * than a property of a parser the model does not contain.
 */
module BrowserStorage {
  import opened Wrappers
  import opened JsonValue

  /** A stored string and what `JSON.parse` returns for it (None: it throws) */
  datatype Stored = Stored(text: string, parsed: Option<Json>)

  /** What `setItem(k, JSON.stringify(v))` stores: non-empty text that parses back to `v` */
  function Written(v: Json): (r: Stored)
    ensures r.text != [] && r.parsed == Some(v)
  {
    Stored(Stringify(v), Some(v))
  }

  datatype Entry = Entry(key: string, value: Stored)

  predicate DistinctKeys(es: seq<Entry>) {
    forall i, j :: 0 <= i < j < |es| ==> es[i].key != es[j].key
  }

  /** The keys in storage order, as `key(0)`, `key(1)`, ... list them */
  function Keys(es: seq<Entry>): seq<string> {
    seq(|es|, i requires 0 <= i < |es| => es[i].key)
  }

  /** Where key `k` is stored, or -1 */
  function Find(es: seq<Entry>, k: string): (r: int)
    ensures -1 <= r < |es|
    ensures r >= 0 ==> es[r].key == k
    ensures r < 0 ==> forall i :: 0 <= i < |es| ==> es[i].key != k
  {
    if es == [] then -1
    else if es[|es| - 1].key == k then |es| - 1
    else Find(es[..|es| - 1], k)
  }

  /** `getItem(k)`: None is `null` */
  function Lookup(es: seq<Entry>, k: string): Option<Stored> {
    var i := Find(es, k);
    if i < 0 then None else Some(es[i].value)
  }

  /** `setItem(k, v)`: a key already present keeps its place, a new key comes last. */
  function Put(es: seq<Entry>, k: string, v: Stored): (r: seq<Entry>)
    ensures forall e :: e in r ==> e == Entry(k, v) || e in es
    ensures Find(es, k) < 0 ==> |r| == |es| + 1
    ensures Find(es, k) >= 0 ==> |r| == |es|
    ensures Entry(k, v) in r
    ensures forall e :: e in es && e.key != k ==> e in r
  {
    var i := Find(es, k);
    if i < 0 then es + [Entry(k, v)]
    else
      var r := es[i := Entry(k, v)];
      assert r[i] == Entry(k, v);
      assert forall e :: e in es && e.key != k ==> e in r by {
        forall e | e in es && e.key != k
          ensures e in r
        {
          var j :| 0 <= j < |es| && es[j] == e;
          assert r[j] == e;
        }
      }
      r
  }

  /** `removeItem(k)`: the entry under `k`, if any, goes; the others keep their order. */
  function Remove(es: seq<Entry>, k: string): (r: seq<Entry>)
    ensures forall e :: e in r ==> e in es
    ensures Find(es, k) < 0 ==> r == es
    ensures Find(es, k) >= 0 ==> |r| == |es| - 1
  {
    var i := Find(es, k);
    if i < 0 then es else es[..i] + es[i + 1..]
  }

  /** With distinct keys, the one entry carrying a key is the one `Find` reports. */
  lemma FindUnique(es: seq<Entry>, k: string, i: int)
    requires DistinctKeys(es) && 0 <= i < |es| && es[i].key == k
    ensures Find(es, k) == i
  {
  }

  /** A lookup of the last key of a list finds the last entry; other keys are looked up in the rest. */
  lemma LookupSplit(es: seq<Entry>, k: string)
    requires es != []
    ensures k == es[|es| - 1].key ==> Lookup(es, k) == Some(es[|es| - 1].value)
    ensures k != es[|es| - 1].key ==> Lookup(es, k) == Lookup(es[..|es| - 1], k)
  {
  }

  lemma PutDistinct(es: seq<Entry>, k: string, v: Stored)
    requires DistinctKeys(es)
    ensures DistinctKeys(Put(es, k, v))
    ensures Keys(Put(es, k, v)) == if Find(es, k) < 0 then Keys(es) + [k] else Keys(es)
  {
  }

  /** After `setItem(k, v)`, `getItem(k)` gives `v` and every other key reads as before. */
  lemma PutLookup(es: seq<Entry>, k: string, v: Stored, k': string)
    requires DistinctKeys(es)
    ensures Lookup(Put(es, k, v), k') == if k' == k then Some(v) else Lookup(es, k')
  {
    PutDistinct(es, k, v);
    var r := Put(es, k, v);
    var i := Find(es, k);
    if k' == k {
      FindUnique(r, k, if i < 0 then |es| else i);
    } else {
      var j := Find(es, k');
      if j >= 0 {
        FindUnique(r, k', j);
      }
    }
  }

  lemma RemoveDistinct(es: seq<Entry>, k: string)
    requires DistinctKeys(es)
    ensures DistinctKeys(Remove(es, k))
  {
    var i := Find(es, k);
    if i >= 0 {
      var r := Remove(es, k);
      forall a, b | 0 <= a < b < |r|
        ensures r[a].key != r[b].key
      {
        var a' := if a < i then a else a + 1;
        var b' := if b < i then b else b + 1;
        assert r[a] == es[a'] && r[b] == es[b'];
      }
    }
  }

  /** After `removeItem(k)`, `getItem(k)` gives `null` and every other key reads as before. */
  lemma RemoveLookup(es: seq<Entry>, k: string, k': string)
    requires DistinctKeys(es)
    ensures Lookup(Remove(es, k), k') == if k' == k then None else Lookup(es, k')
  {
    RemoveDistinct(es, k);
    var r := Remove(es, k);
    var i := Find(es, k);
    if i >= 0 {
      forall a | 0 <= a < |r|
        ensures r[a] == es[if a < i then a else a + 1]
      {
      }
      if k' != k {
        var j := Find(es, k');
        if j >= 0 {
          FindUnique(r, k', if j < i then j else j - 1);
        }
      }
    }
  }

  /** The browser's storage object, which the manager changes through `setItem` and `removeItem`. */
  class LocalStorage {
    var entries: seq<Entry>

    ghost predicate Valid()
      reads this
    {
      DistinctKeys(entries)
    }

    constructor ()
      ensures entries == [] && Valid()
    {
      entries := [];
    }

    /** `localStorage.length` */
    function Length(): nat
      reads this
    {
      |entries|
    }

    /** `localStorage.key(i)`: None is `null`, past the end */
    function Key(i: int): Option<string>
      reads this
    {
      if 0 <= i < |entries| then Some(entries[i].key) else None
    }

    /** `localStorage.getItem(k)`: what is stored under `k`, or `null` exactly when no entry has that key */
    function GetItem(k: string): (r: Option<Stored>)
      reads this
      ensures r.Some? ==> Entry(k, r.value) in entries
      ensures r.None? <==> forall i :: 0 <= i < |entries| ==> entries[i].key != k
    {
      Lookup(entries, k)
    }

    method SetItem(k: string, v: Stored)
      requires Valid()
      modifies this
      ensures Valid()
      ensures entries == Put(old(entries), k, v)
      ensures GetItem(k) == Some(v)
      ensures forall k' :: k' != k ==> GetItem(k') == old(GetItem(k'))
    {
      PutDistinct(entries, k, v);
      forall k' {
        PutLookup(entries, k, v, k');
      }
      entries := Put(entries, k, v);
    }

    method RemoveItem(k: string)
      requires Valid()
      modifies this
      ensures Valid()
      ensures entries == Remove(old(entries), k)
      ensures GetItem(k) == None
      ensures forall k' :: k' != k ==> GetItem(k') == old(GetItem(k'))
    {
      RemoveDistinct(entries, k);
      forall k' {
        RemoveLookup(entries, k, k');
      }
      entries := Remove(entries, k);
    }
  }
}
