/** Removing repeated records: a dictionary keyed by "date_time" is filled in record order,
    a later record replacing an earlier one with the same key, and its values are read back
    in the order their keys were first inserted. */
module Dedup {
  import opened Tides

  /** The dictionary key of a record: `f"{date}_{time}"`. */
  function Key(e: Tide): string {
    e.date + "_" + e.time
  }

  /** With ten-character dates (every ISO date of the year), equal keys mean equal dates and
      equal times, so the key identifies the (date, time) pair. */
  lemma KeyIdentifies(a: Tide, b: Tide)
    requires |a.date| == 10 && |b.date| == 10
    ensures Key(a) == Key(b) <==> a.date == b.date && a.time == b.time
  {
    if Key(a) == Key(b) {
      assert a.date == Key(a)[..10] && b.date == Key(b)[..10];
      assert a.time == Key(a)[11..] && b.time == Key(b)[11..];
    }
  }

  /** The keys of a sequence of records. */
  function Keys(s: seq<Tide>): set<string> {
    set e | e in s :: Key(e)
  }

  /** No two records share a key. */
  predicate DistinctKeys(s: seq<Tide>) {
    forall i, j :: 0 <= i < j < |s| ==> Key(s[i]) != Key(s[j])
  }

  /** A sequence has at most as many keys as records, and exactly as many when no two records
      share a key. */
  lemma {:induction false} KeysCard(s: seq<Tide>)
    ensures |Keys(s)| <= |s|
    ensures |Keys(s)| == |s| <==> DistinctKeys(s)
  {
    if s != [] {
      var init, last := s[..|s| - 1], s[|s| - 1];
      KeysCard(init);
      assert s == init + [last];
      KeysSnoc(init, last);
      DistinctKeysSnoc(init, last);
    }
  }

  /** Appending a record keeps the keys distinct exactly when its key is new. */
  lemma DistinctKeysSnoc(init: seq<Tide>, last: Tide)
    ensures DistinctKeys(init + [last]) <==> DistinctKeys(init) && Key(last) !in Keys(init)
  {
    var s := init + [last];
    if Key(last) in Keys(init) {
      var e :| e in init && Key(e) == Key(last);
      var i :| 0 <= i < |init| && init[i] == e;
      assert s[i] == e && s[|init|] == last;
    } else if DistinctKeys(init) {
      forall i, j | 0 <= i < j < |s|
        ensures Key(s[i]) != Key(s[j])
      {
        assert s[i] == init[i];
        if j < |init| {
          assert s[j] == init[j];
        } else {
          assert s[i] in init;
        }
      }
    } else {
      var i, j :| 0 <= i < j < |init| && Key(init[i]) == Key(init[j]);
      assert s[i] == init[i] && s[j] == init[j];
    }
  }

  /** The last record with key `k`. */
  function LastWith(s: seq<Tide>, k: string): (e: Tide)
    requires k in Keys(s)
    ensures e in s && Key(e) == k
  {
    var last := s[|s| - 1];
    if Key(last) == k then last
    else
      var e := LastWith(s[..|s| - 1], k);
      assert e in s[..|s| - 1];
      e
  }

  /** The position of the first record with key `k`. */
  function FirstIndex(s: seq<Tide>, k: string): (i: nat)
    requires k in Keys(s)
    ensures i < |s| && Key(s[i]) == k
  {
    var init := s[..|s| - 1];
    if k in Keys(init) then
      var i := FirstIndex(init, k);
      assert s[i] == init[i];
      i
    else
      |s| - 1
  }

  /** No record before the first position has key `k`. */
  lemma {:induction false} FirstIndexFirst(s: seq<Tide>, k: string, j: nat)
    requires k in Keys(s) && j < FirstIndex(s, k)
    ensures Key(s[j]) != k
  {
    var init := s[..|s| - 1];
    assert s[j] == init[j];
    if k in Keys(init) {
      FirstIndexFirst(init, k, j);
    } else {
      assert init[j] in init;
    }
  }

  /** An insertion-ordered dictionary: its keys in first-insertion order and its entries. */
  datatype Table = Table(keys: seq<string>, entries: map<string, Tide>)

  /** `table[k] = v`: a new key goes to the end; an existing key keeps its place. */
  function Put(t: Table, k: string, v: Tide): Table {
    if k in t.entries then Table(t.keys, t.entries[k := v])
    else Table(t.keys + [k], t.entries[k := v])
  }

  /** The dictionary after storing every record of `s` in order under its key. */
  function Build(s: seq<Tide>): Table {
    if s == [] then Table([], map[])
    else Put(Build(s[..|s| - 1]), Key(s[|s| - 1]), s[|s| - 1])
  }

  /** A table whose key list and entries agree: the listed keys are distinct and are the
      dictionary's keys. */
  ghost predicate WellFormed(t: Table) {
    && (forall i, j :: 0 <= i < j < |t.keys| ==> t.keys[i] != t.keys[j])
    && (forall k :: k in t.keys <==> k in t.entries)
  }

  /** `list(table.values())`. */
  function Values(t: Table): (r: seq<Tide>)
    requires WellFormed(t)
    ensures |r| == |t.keys|
  {
    seq(|t.keys|, i requires 0 <= i < |t.keys| => t.entries[t.keys[i]])
  }

  lemma KeysSnoc(init: seq<Tide>, last: Tide)
    ensures Keys(init + [last]) == Keys(init) + {Key(last)}
  {
    var s := init + [last];
    forall k | k in Keys(s)
      ensures k in Keys(init) + {Key(last)}
    {
      var e :| e in s && Key(e) == k;
      if e != last {
        assert e in init;
      }
    }
  }

  /** Appending a record leaves the first position of every earlier key unchanged. */
  lemma FirstIndexSnoc(init: seq<Tide>, last: Tide, k: string)
    requires k in Keys(init)
    ensures k in Keys(init + [last]) && FirstIndex(init + [last], k) == FirstIndex(init, k)
  {
    KeysSnoc(init, last);
    var s := init + [last];
    var i, j := FirstIndex(s, k), FirstIndex(init, k);
    assert s[j] == init[j];
  }

  /** The dictionary's listed keys are distinct and are its keys, and those are the keys of `s`. */
  lemma {:induction false} BuildDomain(s: seq<Tide>)
    ensures WellFormed(Build(s))
    ensures forall k :: k in Build(s).entries <==> k in Keys(s)
  {
    if s != [] {
      var init, last := s[..|s| - 1], s[|s| - 1];
      BuildDomain(init);
      assert s == init + [last];
      KeysSnoc(init, last);
    }
  }

  /** Each key holds the last record stored under it. */
  lemma {:induction false} BuildEntries(s: seq<Tide>)
    ensures forall k :: k in Build(s).entries ==> k in Keys(s) && Build(s).entries[k] == LastWith(s, k)
  {
    BuildDomain(s);
    if s != [] {
      var init, last := s[..|s| - 1], s[|s| - 1];
      BuildEntries(init);
      assert s == init + [last];
      KeysSnoc(init, last);
    }
  }

  /** Storing one more record keeps the listed keys in order of first occurrence. */
  lemma OrderSnoc(init: seq<Tide>, last: Tide)
    requires forall k :: k in Build(init).keys ==> k in Keys(init)
    requires forall i, j :: 0 <= i < j < |Build(init).keys| ==>
      FirstIndex(init, Build(init).keys[i]) < FirstIndex(init, Build(init).keys[j])
    ensures forall k :: k in Build(init + [last]).keys ==> k in Keys(init + [last])
    ensures forall i, j :: 0 <= i < j < |Build(init + [last]).keys| ==>
      FirstIndex(init + [last], Build(init + [last]).keys[i]) < FirstIndex(init + [last], Build(init + [last]).keys[j])
  {
    var s := init + [last];
    assert s[..|s| - 1] == init;
    BuildDomain(init);
    KeysSnoc(init, last);
    var ks0, ks := Build(init).keys, Build(s).keys;
    assert ks == if Key(last) in Keys(init) then ks0 else ks0 + [Key(last)];
    forall i, j | 0 <= i < j < |ks|
      ensures FirstIndex(s, ks[i]) < FirstIndex(s, ks[j])
    {
      var a := ks0[i];
      assert ks[i] == a && a in Keys(init);
      FirstIndexSnoc(init, last, a);
      if j < |ks0| {
        var b := ks0[j];
        assert ks[j] == b && b in Keys(init);
        FirstIndexSnoc(init, last, b);
      } else {
        assert FirstIndex(s, ks[j]) == |init|;
      }
    }
  }

  /** The listed keys are in order of first occurrence in `s`. */
  lemma {:induction false} BuildOrder(s: seq<Tide>)
    ensures forall k :: k in Build(s).keys ==> k in Keys(s)
    ensures forall i, j :: 0 <= i < j < |Build(s).keys| ==>
      FirstIndex(s, Build(s).keys[i]) < FirstIndex(s, Build(s).keys[j])
  {
    if s != [] {
      var init, last := s[..|s| - 1], s[|s| - 1];
      BuildOrder(init);
      OrderSnoc(init, last);
      assert s == init + [last];
    }
  }

  /** What the dictionary holds after storing `s`: its keys are the keys of `s` in order of
      first occurrence, and each maps to the last record carrying it. */
  lemma BuildSpec(s: seq<Tide>)
    ensures var t := Build(s);
      && WellFormed(t)
      && (forall k :: k in t.entries <==> k in Keys(s))
      && (forall k :: k in t.entries ==> t.entries[k] == LastWith(s, k))
      && (forall i, j :: 0 <= i < j < |t.keys| ==> FirstIndex(s, t.keys[i]) < FirstIndex(s, t.keys[j]))
  {
    BuildDomain(s);
    BuildEntries(s);
    BuildOrder(s);
  }

  /** The deduplicated records: one per key, in order of the key's first appearance, each the
      last record with that key. */
  function DedupSpec(s: seq<Tide>): seq<Tide> {
    BuildSpec(s);
    Values(Build(s))
  }

  /** The deduplicated records have distinct keys and the keys of the input, each with its
      last record, in order of first appearance. */
  lemma DedupProperties(s: seq<Tide>)
    ensures var r := DedupSpec(s);
      && DistinctKeys(r)
      && Keys(r) == Keys(s)
      && (forall i :: 0 <= i < |r| ==> r[i] == LastWith(s, Key(r[i])))
      && (forall i, j :: 0 <= i < j < |r| ==> FirstIndex(s, Key(r[i])) < FirstIndex(s, Key(r[j])))
  {
    BuildSpec(s);
    var t, r := Build(s), DedupSpec(s);
    assert forall i :: 0 <= i < |r| ==> Key(r[i]) == t.keys[i];
    forall k | k in Keys(s)
      ensures k in Keys(r)
    {
      var i :| 0 <= i < |t.keys| && t.keys[i] == k;
      assert r[i] in r;
    }
  }

  /** Without repeated keys nothing is removed or reordered. */
  lemma {:induction false} DedupDistinct(s: seq<Tide>)
    requires DistinctKeys(s)
    ensures DedupSpec(s) == s
  {
    BuildKeysOfDistinct(s);
    BuildEntriesOfDistinct(s);
  }

  /** Without repeated keys, the last record's key is not yet in the dictionary. */
  lemma LastKeyFresh(s: seq<Tide>)
    requires DistinctKeys(s) && s != []
    ensures Key(s[|s| - 1]) !in Build(s[..|s| - 1]).entries
  {
    var init, last := s[..|s| - 1], s[|s| - 1];
    BuildDomain(init);
    forall e | e in init
      ensures Key(e) != Key(last)
    {
      var i :| 0 <= i < |init| && init[i] == e;
      assert s[i] == e;
    }
  }

  lemma {:induction false} BuildKeysOfDistinct(s: seq<Tide>)
    requires DistinctKeys(s)
    ensures |Build(s).keys| == |s|
    ensures forall i :: 0 <= i < |s| ==> Build(s).keys[i] == Key(s[i])
  {
    if s != [] {
      var init, last := s[..|s| - 1], s[|s| - 1];
      assert DistinctKeys(init);
      BuildKeysOfDistinct(init);
      LastKeyFresh(s);
      assert Build(s).keys == Build(init).keys + [Key(last)];
      forall i | 0 <= i < |init|
        ensures Build(s).keys[i] == Key(s[i])
      {
        assert s[i] == init[i];
      }
    }
  }

  lemma {:induction false} BuildEntriesOfDistinct(s: seq<Tide>)
    requires DistinctKeys(s)
    ensures forall i :: 0 <= i < |s| ==> Key(s[i]) in Build(s).entries && Build(s).entries[Key(s[i])] == s[i]
  {
    if s != [] {
      var init, last := s[..|s| - 1], s[|s| - 1];
      assert DistinctKeys(init);
      BuildEntriesOfDistinct(init);
      LastKeyFresh(s);
      var t0, t := Build(init), Build(s);
      assert t.entries == t0.entries[Key(last) := last];
      forall i | 0 <= i < |init|
        ensures Key(s[i]) in t.entries && t.entries[Key(s[i])] == s[i]
      {
        assert s[i] == init[i] && Key(s[i]) != Key(last);
      }
    }
  }

  /** Deduplicating twice gives what deduplicating once gives. */
  lemma DedupIdempotent(s: seq<Tide>)
    ensures DedupSpec(DedupSpec(s)) == DedupSpec(s)
  {
    DedupProperties(s);
    DedupDistinct(DedupSpec(s));
  }

  /** The de-duplication loop: `unique_map[key] = entry` for every record, then the values in
      insertion order. */
  method Deduplicate(raw: seq<Tide>) returns (clean: seq<Tide>)
    ensures clean == DedupSpec(raw)
  {
    var keys: seq<string> := [];
    var uniqueMap: map<string, Tide> := map[];
    for i := 0 to |raw|
      invariant Table(keys, uniqueMap) == Build(raw[..i])
    {
      assert raw[..i + 1][..i] == raw[..i];
      var entry := raw[i];
      var key := Key(entry);
      if key !in uniqueMap {
        keys := keys + [key];
      }
      uniqueMap := uniqueMap[key := entry];
    }
    assert raw[..|raw|] == raw;
    BuildSpec(raw);
    clean := seq(|keys|, i requires 0 <= i < |keys| => uniqueMap[keys[i]]);
  }
}
