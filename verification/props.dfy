/** The property maps of the mirror (Rust `BTreeMap<Box<str>, String>`),
    modelled as association lists kept strictly sorted by key. Iterating a
    `BTreeMap` visits its keys in increasing order, which is exactly the
    order of this list. */
module Props {
  import opened Base
  import opened Strings

  type Entry = (string, string)

  /** Keys strictly increase along the list, so no key occurs twice. */
  predicate SortedKeys(s: seq<Entry>) {
    forall i, j :: 0 <= i < j < |s| ==> Less(s[i].0, s[j].0)
  }

  type PropMap = s: seq<Entry> | SortedKeys(s) witness []

  function Keys(s: seq<Entry>): set<string> {
    set i | 0 <= i < |s| :: s[i].0
  }

  /** `map.get(k)` */
  function Get(p: seq<Entry>, k: string): (r: Option<string>)
    ensures r.None? <==> k !in Keys(p)
    ensures r.Some? ==> (k, r.value) in p
    decreases |p|
  {
    if |p| == 0 then None
    else if p[0].0 == k then Some(p[0].1)
    else
      var r := Get(p[1..], k);
      assert Keys(p) == {p[0].0} + Keys(p[1..]);
      r
  }

  /** In a sorted list a key has one entry, so `Get` finds exactly it. */
  lemma GetEntry(p: PropMap, i: int)
    requires 0 <= i < |p|
    ensures Get(p, p[i].0) == Some(p[i].1)
  {
    var r := Get(p, p[i].0);
    var j :| 0 <= j < |p| && p[j] == (p[i].0, r.value);
    if j < i {
      LessIrreflexive(p[i].0);
    } else if i < j {
      LessIrreflexive(p[i].0);
    }
  }

  /** Every key of `s` is strictly greater than `k`. */
  predicate Above(k: string, s: seq<Entry>) {
    forall i :: 0 <= i < |s| ==> Less(k, s[i].0)
  }

  lemma SortedAbove(p: PropMap, k: string)
    requires |p| > 0 && Less(k, p[0].0)
    ensures Above(k, p)
  {
    forall i | 0 < i < |p|
      ensures Less(k, p[i].0)
    {
      LessTransitive(k, p[0].0, p[i].0);
    }
  }

  /** `map.insert(k, v)`: replaces the value of an existing key, otherwise
      adds the key in its sorted place. */
  function Insert(p: PropMap, k: string, v: string): (r: PropMap)
    ensures forall e :: e in r <==> e == (k, v) || (e in p && e.0 != k)
    decreases |p|
  {
    if |p| == 0 then [(k, v)]
    else if p[0].0 == k then
      assert Above(k, p[1..]);
      NotAboveSelf(k, p[1..]);
      [(k, v)] + p[1..]
    else if Less(k, p[0].0) then
      SortedAbove(p, k);
      NotAboveSelf(k, p);
      [(k, v)] + p
    else
      LessTotal(k, p[0].0);
      var rest := Insert(p[1..], k, v);
      assert Above(p[0].0, rest) by {
        forall i | 0 <= i < |rest|
          ensures Less(p[0].0, rest[i].0)
        {
          assert rest[i] in rest;
          if rest[i] != (k, v) {
            var j :| 0 <= j < |p[1..]| && p[1..][j] == rest[i];
          }
        }
      }
      assert forall e :: e in p <==> e == p[0] || e in p[1..];
      [p[0]] + rest
  }

  /** No entry of a list above `k` carries `k` itself. */
  lemma NotAboveSelf(k: string, s: seq<Entry>)
    requires Above(k, s)
    ensures forall e :: e in s ==> e.0 != k
  {
    LessIrreflexive(k);
  }

  /** Lookups after an insert: the inserted key reads the new value, every
      other key reads what it read before. */
  lemma InsertGet(p: PropMap, k: string, v: string, k': string)
    ensures Get(Insert(p, k, v), k') == if k' == k then Some(v) else Get(p, k')
  {
    var r := Insert(p, k, v);
    var g := Get(r, k');
    if g.Some? {
      var i :| 0 <= i < |r| && r[i] == (k', g.value);
      GetEntry(r, i);
      if k' != k {
        var j :| 0 <= j < |p| && p[j] == r[i];
        GetEntry(p, j);
      } else {
        assert r[i] in r;
      }
    }
  }

  /** The value the last pair for `k` in `kvs` carries, if any. */
  function LastValue(kvs: seq<Entry>, k: string): (r: Option<string>)
    ensures r.None? <==> forall i :: 0 <= i < |kvs| ==> kvs[i].0 != k
    ensures r.Some? ==> exists i :: 0 <= i < |kvs| && kvs[i] == (k, r.value) &&
                                    forall j :: i < j < |kvs| ==> kvs[j].0 != k
    decreases |kvs|
  {
    if |kvs| == 0 then None
    else if kvs[|kvs| - 1].0 == k then Some(kvs[|kvs| - 1].1)
    else
      var r := LastValue(kvs[..|kvs| - 1], k);
      assert forall i :: 0 <= i < |kvs| - 1 ==> kvs[..|kvs| - 1][i] == kvs[i];
      r
  }

  /** `map.extend(kvs)`: inserts the pairs in order, so a later pair for a
      key overrides an earlier one and both override the map. */
  function Extend(p: PropMap, kvs: seq<Entry>): (r: PropMap)
    ensures Keys(r) == Keys(p) + Keys(kvs)
    decreases |kvs|
  {
    if |kvs| == 0 then p
    else
      InsertKeys(p, kvs[0].0, kvs[0].1);
      assert Keys(kvs) == {kvs[0].0} + Keys(kvs[1..]);
      Extend(Insert(p, kvs[0].0, kvs[0].1), kvs[1..])
  }

  lemma {:induction false} LastValueFront(kvs: seq<Entry>, k: string)
    requires |kvs| > 0
    ensures LastValue(kvs, k) ==
              if LastValue(kvs[1..], k).Some? then LastValue(kvs[1..], k)
              else if kvs[0].0 == k then Some(kvs[0].1)
              else None
    decreases |kvs|
  {
    if |kvs| > 1 && kvs[|kvs| - 1].0 != k {
      LastValueFront(kvs[..|kvs| - 1], k);
      assert kvs[..|kvs| - 1][1..] == kvs[1..][..|kvs[1..]| - 1];
    }
  }

  /** What a lookup reads after `extend`: the last staged value for the key
      if it was staged at all, otherwise the map's own value. */
  lemma {:induction false} ExtendGet(p: PropMap, kvs: seq<Entry>, k: string)
    ensures Get(Extend(p, kvs), k) ==
              if LastValue(kvs, k).Some? then LastValue(kvs, k) else Get(p, k)
    decreases |kvs|
  {
    if |kvs| > 0 {
      var p' := Insert(p, kvs[0].0, kvs[0].1);
      ExtendGet(p', kvs[1..], k);
      InsertGet(p, kvs[0].0, kvs[0].1, k);
      LastValueFront(kvs, k);
    }
  }

  lemma InsertKeys(p: PropMap, k: string, v: string)
    ensures Keys(Insert(p, k, v)) == Keys(p) + {k}
  {
    var r := Insert(p, k, v);
    forall x | x in Keys(r)
      ensures x in Keys(p) + {k}
    {
      var i :| 0 <= i < |r| && r[i].0 == x;
      assert r[i] in r;
    }
    forall x | x in Keys(p) + {k}
      ensures x in Keys(r)
    {
      if x == k {
        assert (k, v) in r;
      } else {
        var i :| 0 <= i < |p| && p[i].0 == x;
        assert p[i] in p;
        assert p[i] in r;
      }
    }
  }

  /** Deleting `k` (a "Delete" button of the map editor, `retain` dropping
      one key): every other entry stays, in order. */
  function Remove(p: PropMap, k: string): (r: PropMap)
    ensures forall e :: e in r <==> e in p && e.0 != k
    decreases |p|
  {
    if |p| == 0 then []
    else if p[0].0 == k then
      assert Above(k, p[1..]);
      NotAboveSelf(k, p[1..]);
      assert forall e :: e in p <==> e == p[0] || e in p[1..];
      p[1..]
    else
      var rest := Remove(p[1..], k);
      assert Above(p[0].0, rest) by {
        forall i | 0 <= i < |rest|
          ensures Less(p[0].0, rest[i].0)
        {
          assert rest[i] in rest;
          var j :| 0 <= j < |p[1..]| && p[1..][j] == rest[i];
        }
      }
      assert forall e :: e in p <==> e == p[0] || e in p[1..];
      [p[0]] + rest
  }

  lemma RemoveKeys(p: PropMap, k: string)
    ensures Keys(Remove(p, k)) == Keys(p) - {k}
  {
    var r := Remove(p, k);
    forall x | x in Keys(r)
      ensures x in Keys(p) - {k}
    {
      var i :| 0 <= i < |r| && r[i].0 == x;
      assert r[i] in r;
    }
    forall x | x in Keys(p) - {k}
      ensures x in Keys(r)
    {
      var i :| 0 <= i < |p| && p[i].0 == x;
      assert p[i] in p;
      assert p[i] in r;
    }
  }

  /** Lookups after a delete: the deleted key reads nothing, every other
      key reads what it read before. */
  lemma RemoveGet(p: PropMap, k: string, k': string)
    ensures Get(Remove(p, k), k') == if k' == k then None else Get(p, k')
  {
    var r := Remove(p, k);
    RemoveKeys(p, k);
    if k' != k && Get(p, k').Some? {
      var w := Get(p, k').value;
      assert (k', w) in r;
      var i :| 0 <= i < |r| && r[i] == (k', w);
      GetEntry(r, i);
    }
  }
}
