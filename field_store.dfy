/**
 * The fragment's `options` store. The top level maps a key to either a scalar
 * (the address fields) or a group (name, telephone, amount, payment). A group
 * is a PHP array: an ORDERED list of sub-key/value pairs with distinct keys,
 * where writing a new key appends it and writing an existing key overwrites
 * it where it stands. `KSort` is PHP's ksort on such a list.
 */
module FieldStore {
  import opened Wrappers

  datatype Field = Field(key: string, value: string)

  datatype Entry = Scalar(text: string) | Group(fields: seq<Field>)

  type Options = map<string, Entry>

  predicate DistinctKeys(g: seq<Field>) {
    forall i, j :: 0 <= i < j < |g| ==> g[i].key != g[j].key
  }

  /** `$group[$key]`, or None when the key is unset. */
  function Lookup(g: seq<Field>, k: string): Option<string>
    decreases |g|
  {
    if g == [] then None
    else if g[0].key == k then Some(g[0].value)
    else Lookup(g[1..], k)
  }

  /** `$group[$key] = $value`: overwrite in place, or append a new key at the end. */
  function Put(g: seq<Field>, k: string, v: string): (r: seq<Field>)
    ensures Lookup(r, k) == Some(v)
    ensures forall k' :: k' != k ==> Lookup(r, k') == Lookup(g, k')
    ensures Lookup(g, k) == None ==> r == g + [Field(k, v)]
    ensures Lookup(g, k) != None ==> |r| == |g|
    decreases |g|
  {
    if g == [] then [Field(k, v)]
    else if g[0].key == k then [Field(k, v)] + g[1..]
    else [g[0]] + Put(g[1..], k, v)
  }

  /** Every pair after the write was there before, or is the one written. */
  lemma {:induction false} PutMembers(g: seq<Field>, k: string, v: string)
    ensures forall f :: f in Put(g, k, v) ==> f in g || f == Field(k, v)
    decreases |g|
  {
    if g != [] {
      assert g == [g[0]] + g[1..];
      if g[0].key != k {
        PutMembers(g[1..], k, v);
      }
    }
  }

  /** Writing a key keeps the keys of a group distinct. */
  lemma {:induction false} PutDistinct(g: seq<Field>, k: string, v: string)
    ensures DistinctKeys(g) ==> DistinctKeys(Put(g, k, v))
    decreases |g|
  {
    if g != [] && DistinctKeys(g) {
      var r := Put(g, k, v);
      if g[0].key == k {
        forall i, j | 0 <= i < j < |r| ensures r[i].key != r[j].key {
          assert r[j] == g[j];
          if i > 0 {
            assert r[i] == g[i];
          }
        }
      } else {
        assert DistinctKeys(g[1..]);
        PutDistinct(g[1..], k, v);
        PutMembers(g[1..], k, v);
        DistinctCons(g, g[0], Put(g[1..], k, v), k);
      }
    }
  }

  /**
   * With distinct keys, writing a key that is already set overwrites its pair
   * where it stands; every other pair keeps its place.
   */
  lemma {:induction false} PutInPlace(g: seq<Field>, k: string, v: string)
    requires DistinctKeys(g) && Lookup(g, k) != None
    ensures |Put(g, k, v)| == |g|
    ensures forall i :: 0 <= i < |g| ==> Put(g, k, v)[i] == (if g[i].key == k then Field(k, v) else g[i])
    decreases |g|
  {
    if g[0].key == k {
      assert forall i :: 1 <= i < |g| ==> g[i].key != k;
    } else {
      assert DistinctKeys(g[1..]);
      PutInPlace(g[1..], k, v);
    }
  }

  lemma DistinctCons(g: seq<Field>, x: Field, rest: seq<Field>, k: string)
    requires g != [] && x == g[0] && x.key != k
    requires forall f :: f in rest ==> f in g[1..] || f.key == k
    requires DistinctKeys(g) ==> DistinctKeys(rest)
    ensures DistinctKeys(g) ==> DistinctKeys([x] + rest)
  {
    if DistinctKeys(g) {
      var r := [x] + rest;
      forall i, j | 0 <= i < j < |r| ensures r[i].key != r[j].key {
        if i == 0 {
          assert r[j] == rest[j - 1] && r[j] in rest;
          if r[j] in g[1..] {
            var m :| 0 <= m < |g[1..]| && g[1..][m] == r[j];
            assert g[m + 1] == r[j];
          }
        } else {
          assert r[i] == rest[i - 1] && r[j] == rest[j - 1];
        }
      }
    }
  }

  /** `unset($group[$key])`: the other pairs stay, in their order. */
  function Remove(g: seq<Field>, k: string): (r: seq<Field>)
    ensures Lookup(r, k) == None
    ensures forall k' :: k' != k ==> Lookup(r, k') == Lookup(g, k')
    decreases |g|
  {
    if g == [] then []
    else if g[0].key == k then Remove(g[1..], k)
    else [g[0]] + Remove(g[1..], k)
  }

  /** A group in which no pair has key `k` looks `k` up as unset. */
  lemma {:induction false} LookupAbsent(g: seq<Field>, k: string)
    requires forall i :: 0 <= i < |g| ==> g[i].key != k
    ensures Lookup(g, k) == None
    decreases |g|
  {
    if g != [] {
      LookupAbsent(g[1..], k);
    }
  }

  /** With distinct keys, unset drops one pair when the key is set and none otherwise. */
  lemma {:induction false} RemoveLength(g: seq<Field>, k: string)
    requires DistinctKeys(g)
    ensures |Remove(g, k)| == |g| - (if Lookup(g, k).Some? then 1 else 0)
    decreases |g|
  {
    if g != [] {
      assert DistinctKeys(g[1..]);
      RemoveLength(g[1..], k);
      if g[0].key == k {
        assert forall i :: 0 <= i < |g[1..]| ==> g[1..][i].key != k;
        LookupAbsent(g[1..], k);
      }
    }
  }

  /** unset keeps exactly the pairs whose key is not the one removed. */
  lemma {:induction false} RemoveMembers(g: seq<Field>, k: string)
    ensures forall f :: f in Remove(g, k) <==> f in g && f.key != k
    decreases |g|
  {
    if g != [] {
      RemoveMembers(g[1..], k);
      assert g == [g[0]] + g[1..];
    }
  }

  lemma {:induction false} RemoveDistinct(g: seq<Field>, k: string)
    requires DistinctKeys(g)
    ensures DistinctKeys(Remove(g, k))
    decreases |g|
  {
    if g != [] {
      RemoveDistinct(g[1..], k);
      if g[0].key != k {
        RemoveMembers(g[1..], k);
        DistinctCons(g, g[0], Remove(g[1..], k), k);
      }
    }
  }

  /** A key is looked up to a value exactly when that pair is in the group. */
  lemma {:induction false} LookupMember(g: seq<Field>, k: string, v: string)
    requires DistinctKeys(g)
    ensures Lookup(g, k) == Some(v) <==> Field(k, v) in g
    decreases |g|
  {
    if g != [] {
      assert DistinctKeys(g[1..]);
      LookupMember(g[1..], k, v);
    }
  }

  /** The group stored under `name`; an absent key reads as the empty group. */
  function GroupOf(o: Options, name: string): seq<Field> {
    if name in o && o[name].Group? then o[name].fields else []
  }

  /**
   * `if(!isset($o[name])) $o[name] = []; $o[name][k] = v;`: the group is created
   * on first write, one sub-key is written, the other sub-keys and every other
   * top-level key are kept.
   */
  function SetSub(o: Options, name: string, k: string, v: string): (r: Options)
    ensures r.Keys == o.Keys + {name}
    ensures r[name].Group? && Lookup(r[name].fields, k) == Some(v)
    ensures forall k' :: k' != k ==> Lookup(r[name].fields, k') == Lookup(GroupOf(o, name), k')
    ensures name !in o ==> r[name] == Group([Field(k, v)])
    ensures forall n :: n in o && n != name ==> r[n] == o[n]
    ensures DistinctKeys(GroupOf(o, name)) ==> DistinctKeys(r[name].fields)
  {
    PutDistinct(GroupOf(o, name), k, v);
    o[name := Group(Put(GroupOf(o, name), k, v))]
  }

  /** PHP `empty()` of a string that may be unset: unset, "" or "0". */
  predicate IsEmptyValue(v: Option<string>) {
    v == None || v == Some("") || v == Some("0")
  }

  /**
   * `if(empty($group[k])) $group[k] = d;`: the sticky default. It is written
   * only when the key is unset or PHP-empty, and nothing else changes.
   */
  function PutIfEmpty(g: seq<Field>, k: string, d: string): (r: seq<Field>)
    ensures IsEmptyValue(Lookup(g, k)) ==> Lookup(r, k) == Some(d)
    ensures !IsEmptyValue(Lookup(g, k)) ==> r == g
    ensures forall k' :: k' != k ==> Lookup(r, k') == Lookup(g, k')
    ensures DistinctKeys(g) ==> DistinctKeys(r)
  {
    PutDistinct(g, k, d);
    if IsEmptyValue(Lookup(g, k)) then Put(g, k, d) else g
  }

  /**
   * `if(!isset($o[name])) $o[name] = []; if(empty($o[name][k])) $o[name][k] = d;`:
   * the group is created if needed and the sticky default is applied to it;
   * every other top-level key is kept.
   */
  function SetDefault(o: Options, name: string, k: string, d: string): (r: Options)
    ensures r.Keys == o.Keys + {name}
    ensures r[name].Group?
    ensures IsEmptyValue(Lookup(GroupOf(o, name), k)) ==> Lookup(r[name].fields, k) == Some(d)
    ensures !IsEmptyValue(Lookup(GroupOf(o, name), k)) ==> r[name].fields == GroupOf(o, name)
    ensures forall k' :: k' != k ==> Lookup(r[name].fields, k') == Lookup(GroupOf(o, name), k')
    ensures forall n :: n in o && n != name ==> r[n] == o[n]
    ensures DistinctKeys(GroupOf(o, name)) ==> DistinctKeys(r[name].fields)
  {
    o[name := Group(PutIfEmpty(GroupOf(o, name), k, d))]
  }

  /**
   * The pattern setTelephone and setAmount share: the group is created if
   * needed, the sub-key `dk` receives the sticky default `d`, and then the
   * sub-key `k` is overwritten with `v`.
   */
  function SetWithDefault(o: Options, name: string, dk: string, d: string, k: string, v: string): (r: Options)
    requires k != dk
    ensures r.Keys == o.Keys + {name}
    ensures forall n :: n in o && n != name ==> r[n] == o[n]
    ensures r[name].Group?
    ensures Lookup(r[name].fields, k) == Some(v)
    ensures IsEmptyValue(Lookup(GroupOf(o, name), dk)) ==> Lookup(r[name].fields, dk) == Some(d)
    ensures !IsEmptyValue(Lookup(GroupOf(o, name), dk)) ==>
              Lookup(r[name].fields, dk) == Lookup(GroupOf(o, name), dk)
    ensures forall k' :: k' != k && k' != dk ==> Lookup(r[name].fields, k') == Lookup(GroupOf(o, name), k')
    ensures DistinctKeys(GroupOf(o, name)) ==> DistinctKeys(r[name].fields)
  {
    SetSub(SetDefault(o, name, dk, d), name, k, v)
  }

  /** PHP `empty($o[name])` for a group: absent, or an empty array. */
  predicate IsEmptyGroup(o: Options, name: string) {
    name !in o || (o[name].Group? && o[name].fields == [])
  }

  // ---------------------------------------------------------------------
  // Key order and ksort

  /** PHP's comparison of two non-numeric string keys: byte-wise lexicographic. */
  predicate KeyLe(a: string, b: string)
    decreases |a|
  {
    if a == [] then true
    else if b == [] then false
    else if a[0] != b[0] then a[0] < b[0]
    else KeyLe(a[1..], b[1..])
  }

  lemma {:induction false} KeyLeTotal(a: string, b: string)
    ensures KeyLe(a, b) || KeyLe(b, a)
    decreases |a|
  {
    if a != [] && b != [] && a[0] == b[0] {
      KeyLeTotal(a[1..], b[1..]);
    }
  }

  lemma {:induction false} KeyLeAntisymmetric(a: string, b: string)
    requires KeyLe(a, b) && KeyLe(b, a)
    ensures a == b
    decreases |a|
  {
    if a != [] && b != [] {
      KeyLeAntisymmetric(a[1..], b[1..]);
      assert a == [a[0]] + a[1..];
      assert b == [b[0]] + b[1..];
    }
  }

  lemma {:induction false} KeyLeTransitive(a: string, b: string, c: string)
    requires KeyLe(a, b) && KeyLe(b, c)
    ensures KeyLe(a, c)
    decreases |a|
  {
    if a != [] && b != [] && c != [] && a[0] == b[0] && b[0] == c[0] {
      KeyLeTransitive(a[1..], b[1..], c[1..]);
    }
  }

  /** Keys ascend along the group. */
  predicate Sorted(g: seq<Field>) {
    forall i, j :: 0 <= i < j < |g| ==> KeyLe(g[i].key, g[j].key)
  }

  function Insert(f: Field, g: seq<Field>): seq<Field>
    decreases |g|
  {
    if g == [] then [f]
    else if KeyLe(f.key, g[0].key) then [f] + g
    else [g[0]] + Insert(f, g[1..])
  }

  /** ksort: the group reordered by ascending key. */
  function KSort(g: seq<Field>): seq<Field>
    decreases |g|
  {
    if g == [] then [] else Insert(g[0], KSort(g[1..]))
  }

  lemma {:induction false} InsertPermutes(f: Field, g: seq<Field>)
    ensures multiset(Insert(f, g)) == multiset(g) + multiset{f}
    decreases |g|
  {
    if g != [] && !KeyLe(f.key, g[0].key) {
      InsertPermutes(f, g[1..]);
      assert g == [g[0]] + g[1..];
    }
  }

  lemma {:induction false} InsertSorted(f: Field, g: seq<Field>)
    requires Sorted(g)
    ensures Sorted(Insert(f, g))
    decreases |g|
  {
    if g == [] {
    } else if KeyLe(f.key, g[0].key) {
      forall j | 0 < j < |g| ensures KeyLe(f.key, g[j].key) {
        KeyLeTransitive(f.key, g[0].key, g[j].key);
      }
    } else {
      KeyLeTotal(f.key, g[0].key);
      var rest := Insert(f, g[1..]);
      InsertSorted(f, g[1..]);
      InsertPermutes(f, g[1..]);
      forall j | 0 <= j < |rest| ensures KeyLe(g[0].key, rest[j].key) {
        assert rest[j] in multiset(rest);
        if rest[j] != f {
          assert rest[j] in multiset(g[1..]);
          var m :| 0 <= m < |g[1..]| && g[1..][m] == rest[j];
          assert g[m + 1] == rest[j];
        }
      }
    }
  }

  lemma {:induction false} KSortSorted(g: seq<Field>)
    ensures Sorted(KSort(g))
    decreases |g|
  {
    if g != [] {
      KSortSorted(g[1..]);
      InsertSorted(g[0], KSort(g[1..]));
    }
  }

  lemma {:induction false} KSortPermutes(g: seq<Field>)
    ensures multiset(KSort(g)) == multiset(g)
    decreases |g|
  {
    if g != [] {
      var t := KSort(g[1..]);
      KSortPermutes(g[1..]);
      InsertPermutes(g[0], t);
      assert g == [g[0]] + g[1..];
      assert multiset(g) == multiset{g[0]} + multiset(g[1..]);
    }
  }

  /** Two groups with the same pairs and distinct keys agree on the lookup of `k`. */
  lemma SamePairsSameLookup(g: seq<Field>, h: seq<Field>, k: string)
    requires DistinctKeys(g) && DistinctKeys(h)
    requires multiset(g) == multiset(h)
    ensures Lookup(g, k) == Lookup(h, k)
  {
    if Lookup(g, k).Some? {
      LookupMember(g, k, Lookup(g, k).value);
      assert Field(k, Lookup(g, k).value) in multiset(h);
      LookupMember(h, k, Lookup(g, k).value);
    } else if Lookup(h, k).Some? {
      LookupMember(h, k, Lookup(h, k).value);
      assert Field(k, Lookup(h, k).value) in multiset(g);
      LookupMember(g, k, Lookup(h, k).value);
    }
  }

  /** ksort answers the lookup of `k` as the group did. */
  lemma KSortLookup(g: seq<Field>, k: string)
    requires DistinctKeys(g)
    ensures Lookup(KSort(g), k) == Lookup(g, k)
  {
    KSortPermutes(g);
    KSortDistinct(g);
    SamePairsSameLookup(KSort(g), g, k);
  }

  /** A key that is neither the inserted one nor in the group is not in the result. */
  lemma {:induction false} InsertAvoids(f: Field, g: seq<Field>, k: string)
    requires f.key != k
    requires forall i :: 0 <= i < |g| ==> g[i].key != k
    ensures forall j :: 0 <= j < |Insert(f, g)| ==> Insert(f, g)[j].key != k
    decreases |g|
  {
    if g != [] && !KeyLe(f.key, g[0].key) {
      InsertAvoids(f, g[1..], k);
      assert forall i :: 0 <= i < |g[1..]| ==> g[1..][i].key != k;
    }
  }

  /** Inserting a pair whose key is new keeps the keys distinct. */
  lemma {:induction false} InsertDistinct(f: Field, g: seq<Field>)
    requires DistinctKeys(g)
    requires forall i :: 0 <= i < |g| ==> g[i].key != f.key
    ensures DistinctKeys(Insert(f, g))
    decreases |g|
  {
    if g == [] {
    } else if KeyLe(f.key, g[0].key) {
      var r := [f] + g;
      forall i, j | 0 <= i < j < |r| ensures r[i].key != r[j].key {
        assert r[j] == g[j - 1];
        if i > 0 {
          assert r[i] == g[i - 1];
        }
      }
    } else {
      var tail := g[1..];
      assert DistinctKeys(tail) by {
        forall i, j | 0 <= i < j < |tail| ensures tail[i].key != tail[j].key {
          assert tail[i] == g[i + 1] && tail[j] == g[j + 1];
        }
      }
      InsertDistinct(f, tail);
      assert forall i :: 0 <= i < |tail| ==> tail[i].key != g[0].key by {
        forall i | 0 <= i < |tail| ensures tail[i].key != g[0].key {
          assert tail[i] == g[i + 1];
        }
      }
      InsertAvoids(f, tail, g[0].key);
      var rest := Insert(f, tail);
      var r := [g[0]] + rest;
      forall i, j | 0 <= i < j < |r| ensures r[i].key != r[j].key {
        assert r[j] == rest[j - 1];
        if i > 0 {
          assert r[i] == rest[i - 1];
        }
      }
    }
  }

  lemma {:induction false} KSortDistinct(g: seq<Field>)
    requires DistinctKeys(g)
    ensures DistinctKeys(KSort(g))
    decreases |g|
  {
    if g != [] {
      KSortDistinct(g[1..]);
      KSortPermutes(g[1..]);
      var s := KSort(g[1..]);
      forall i | 0 <= i < |s| ensures s[i].key != g[0].key {
        assert s[i] in multiset(g[1..]);
        var m :| 0 <= m < |g[1..]| && g[1..][m] == s[i];
        assert g[m + 1] == s[i];
      }
      InsertDistinct(g[0], s);
    }
  }

  /**
   * What `ksort($group)` promises: the group becomes sorted by key, holds the
   * same pairs as before, keeps its keys distinct, and answers every lookup
   * as before.
   */
  lemma KSortSpec(g: seq<Field>)
    requires DistinctKeys(g)
    ensures Sorted(KSort(g)) && DistinctKeys(KSort(g))
    ensures multiset(KSort(g)) == multiset(g)
    ensures forall k :: Lookup(KSort(g), k) == Lookup(g, k)
  {
    KSortSorted(g);
    KSortPermutes(g);
    KSortDistinct(g);
    forall k ensures Lookup(KSort(g), k) == Lookup(g, k) {
      KSortLookup(g, k);
    }
  }

  /** A group that is already sorted is left as it is, so ksort is idempotent. */
  lemma {:induction false} KSortFixesSorted(g: seq<Field>)
    requires Sorted(g)
    ensures KSort(g) == g
    decreases |g|
  {
    if g != [] {
      KSortFixesSorted(g[1..]);
      assert g == [g[0]] + g[1..];
    }
  }

  lemma KSortIdempotent(g: seq<Field>)
    ensures KSort(KSort(g)) == KSort(g)
  {
    KSortSorted(g);
    KSortFixesSorted(KSort(g));
  }

  /** A lower bound on every key of a group bounds every key left by unset. */
  lemma {:induction false} RemoveBound(g: seq<Field>, k: string, low: string)
    requires forall i :: 0 <= i < |g| ==> KeyLe(low, g[i].key)
    ensures forall j :: 0 <= j < |Remove(g, k)| ==> KeyLe(low, Remove(g, k)[j].key)
    decreases |g|
  {
    if g != [] {
      RemoveBound(g[1..], k, low);
      assert forall j :: 0 <= j < |g[1..]| ==> KeyLe(low, g[1..][j].key);
    }
  }

  /** Removing a key from a sorted group leaves it sorted. */
  lemma {:induction false} RemoveSorted(g: seq<Field>, k: string)
    requires Sorted(g)
    ensures Sorted(Remove(g, k))
    decreases |g|
  {
    if g != [] {
      var tail := g[1..];
      assert Sorted(tail) by {
        forall i, j | 0 <= i < j < |tail| ensures KeyLe(tail[i].key, tail[j].key) {
          assert tail[i] == g[i + 1] && tail[j] == g[j + 1];
        }
      }
      RemoveSorted(tail, k);
      if g[0].key != k {
        var rest := Remove(tail, k);
        RemoveBound(tail, k, g[0].key);
        var r := [g[0]] + rest;
        forall i, j | 0 <= i < j < |r| ensures KeyLe(r[i].key, r[j].key) {
          assert r[j] == rest[j - 1];
          if i > 0 {
            assert r[i] == rest[i - 1];
          }
        }
      }
    }
  }
}
