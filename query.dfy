/**
 * The decoded query string of a request, as `URLSearchParams` sees it: an
 * ordered list of `(name, value)` entries in which a name may repeat.
 */
module Query {
  import opened Wrappers

  /** One decoded query entry, `(name, value)`. */
  type Entry = (string, string)

  /** The value of the first entry named `key`, or None when there is none (`URLSearchParams.prototype.get`). */
  function FirstValue(entries: seq<Entry>, key: string): (r: Option<string>)
    ensures r.None? <==> forall i | 0 <= i < |entries| :: entries[i].0 != key
    ensures r.Some? ==> exists i | 0 <= i < |entries| :: entries[i] == (key, r.value) && forall j | 0 <= j < i :: entries[j].0 != key
    decreases |entries|
  {
    if entries == [] then None
    else if entries[0].0 == key then
      assert entries[0] == (key, entries[0].1);
      Some(entries[0].1)
    else
      var r := FirstValue(entries[1..], key);
      assert forall i | 0 <= i < |entries[1..]| :: entries[1..][i] == entries[i + 1];
      r
  }

  /** The value found is the one of the first entry with the name. */
  lemma {:induction false} FirstValueAt(entries: seq<Entry>, k: nat, key: string)
    requires k < |entries| && entries[k].0 == key
    requires forall j | 0 <= j < k :: entries[j].0 != key
    ensures FirstValue(entries, key) == Some(entries[k].1)
    decreases k
  {
    if k > 0 {
      var rest := entries[1..];
      forall j | 0 <= j < k - 1 ensures rest[j].0 != key {
        assert rest[j] == entries[j + 1];
      }
      assert rest[k - 1] == entries[k];
      FirstValueAt(rest, k - 1, key);
    }
  }

  /** The entries not named `key`, in their original order (`URLSearchParams.prototype.delete`). */
  function RemoveAll(entries: seq<Entry>, key: string): (r: seq<Entry>)
    ensures forall e :: e in r <==> e in entries && e.0 != key
    ensures |r| <= |entries|
    decreases |entries|
  {
    if entries == [] then []
    else if entries[0].0 == key then RemoveAll(entries[1..], key)
    else [entries[0]] + RemoveAll(entries[1..], key)
  }

  /** Removing from two lists glued together is removing from each: the kept entries keep their relative order. */
  lemma {:induction false} RemoveAllConcat(a: seq<Entry>, b: seq<Entry>, key: string)
    ensures RemoveAll(a + b, key) == RemoveAll(a, key) + RemoveAll(b, key)
    decreases |a|
  {
    if a == [] {
      assert a + b == b;
    } else {
      assert (a + b)[0] == a[0] && (a + b)[1..] == a[1..] + b;
      RemoveAllConcat(a[1..], b, key);
    }
  }

  /** A list without `key` is left as it is. */
  lemma {:induction false} RemoveAllAbsent(entries: seq<Entry>, key: string)
    requires forall i | 0 <= i < |entries| :: entries[i].0 != key
    ensures RemoveAll(entries, key) == entries
    decreases |entries|
  {
    if entries != [] {
      assert entries[0].0 != key;
      RemoveAllAbsent(entries[1..], key);
    }
  }

  /** Removing twice is removing once. */
  lemma RemoveAllIdempotent(entries: seq<Entry>, key: string)
    ensures RemoveAll(RemoveAll(entries, key), key) == RemoveAll(entries, key)
  {
    var r := RemoveAll(entries, key);
    forall i | 0 <= i < |r| ensures r[i].0 != key {
      assert r[i] in r;
    }
    RemoveAllAbsent(r, key);
  }

  /** `URLSearchParams` over a query string, as a mutable list of decoded entries. */
  class SearchParams {
    var entries: seq<Entry>

    /** `new URLSearchParams(querystring)`, given the decoded entries of the query string. */
    constructor(entries: seq<Entry>)
      ensures this.entries == entries
    {
      this.entries := entries;
    }

    /** `get(key)`: the value of the first entry named `key`. */
    function Get(key: string): (r: Option<string>)
      reads this
    {
      FirstValue(entries, key)
    }

    /** `delete(key)`: removes every entry named `key` and keeps the others in order. */
    method Delete(key: string)
      modifies this
      ensures entries == RemoveAll(old(entries), key)
    {
      entries := RemoveAll(entries, key);
    }

    /** `toString()`, as the decoded entries it serialises. */
    function Entries(): (r: seq<Entry>)
      reads this
    {
      entries
    }
  }
}
