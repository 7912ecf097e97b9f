/**
 * The rules of the addressable fragment, as functions on the store: the keys
 * its setters write, the sticky "H" telephone type, and the nodes the name
 * compiler appends. The class in module Fragment performs these updates in
 * place and is proved to agree with them.
 */
module AddressFragment {
  import opened Wrappers
  import opened FieldStore
  import opened Document

  /** The top-level scalars written by setEmail … setCountry. */
  datatype AddressField = Email | Premise | Street | Town | County | Postcode | Country

  function AddressKey(f: AddressField): string {
    match f
    case Email => "email"
    case Premise => "premise"
    case Street => "street"
    case Town => "town"
    case County => "county"
    case Postcode => "postcode"
    case Country => "country"
  }

  /** The sub-keys of the `name` group, written by setNamePrefix … setNameSuffix. */
  datatype NamePart = Prefix | First | Middle | Last | Suffix

  function NameKey(p: NamePart): string {
    match p
    case Prefix => "prefix"
    case First => "first"
    case Middle => "middle"
    case Last => "last"
    case Suffix => "suffix"
  }

  /** The keys that hold groups rather than scalars. */
  predicate IsGroupKey(k: string) {
    k == "name" || k == "telephone" || k == "amount" || k == "payment"
  }

  /** The keys that hold address scalars. */
  predicate IsAddressKey(k: string) {
    k == "email" || k == "premise" || k == "street" || k == "town" ||
    k == "county" || k == "postcode" || k == "country"
  }

  /** No key is both a group key and an address key. */
  lemma GroupKeyNotAddress(k: string)
    requires IsGroupKey(k)
    ensures !IsAddressKey(k)
  {
  }

  /** Each address setter has its own key, a scalar key that is not a group key. */
  lemma AddressKeysSeparate(f: AddressField, f': AddressField)
    ensures AddressKey(f) == AddressKey(f') <==> f == f'
    ensures IsAddressKey(AddressKey(f)) && !IsGroupKey(AddressKey(f))
  {
  }

  /** The five name sub-keys sort as first < last < middle < prefix < suffix. */
  lemma NameKeyOrder()
    ensures KeyLe(NameKey(First), NameKey(Last)) && NameKey(First) != NameKey(Last)
    ensures KeyLe(NameKey(Last), NameKey(Middle)) && NameKey(Last) != NameKey(Middle)
    ensures KeyLe(NameKey(Middle), NameKey(Prefix)) && NameKey(Middle) != NameKey(Prefix)
    ensures KeyLe(NameKey(Prefix), NameKey(Suffix)) && NameKey(Prefix) != NameKey(Suffix)
  {
  }

  /**
   * setTelephone: the group is created if needed, `type` becomes "H" only when
   * it is unset or PHP-empty, and `number` is always overwritten.
   */
  function SetTelephone(o: Options, phone: string): Options {
    SetWithDefault(o, "telephone", "type", "H", "number", phone)
  }

  /** A non-empty type set before the number survives setTelephone. */
  lemma TelephoneTypeSticky(o: Options, t: string, phone: string)
    requires !IsEmptyValue(Some(t))
    ensures Lookup(SetTelephone(SetSub(o, "telephone", "type", t), phone)["telephone"].fields, "type") == Some(t)
  {
  }

  /** Values written into the name children as they are: compileName does not escape. */
  function Verbatim(s: string): string {
    s
  }

  /**
   * What compileName appends under `parent` when the next free node index is
   * `at`: a `name` node, then one child of it per stored sub-key in ksort order.
   */
  function NameNodes(g: seq<Field>, parent: nat, at: nat): seq<Node> {
    [Node(parent, "name", None, [])] + Children(KSort(g), at, Verbatim)
  }

  /**
   * The name node is first; its children follow, one per stored pair, with
   * strictly ascending names.
   */
  lemma NameNodesSpec(g: seq<Field>, parent: nat, at: nat)
    requires DistinctKeys(g)
    ensures |NameNodes(g, parent, at)| == 1 + |g|
    ensures NameNodes(g, parent, at)[0] == Node(parent, "name", None, [])
    ensures forall i, j :: 1 <= i < j < |NameNodes(g, parent, at)| ==>
              KeyLe(NameNodes(g, parent, at)[i].name, NameNodes(g, parent, at)[j].name) &&
              NameNodes(g, parent, at)[i].name != NameNodes(g, parent, at)[j].name
  {
    var s := KSort(g);
    KSortSorted(g);
    KSortDistinct(g);
    KSortPermutes(g);
    assert |s| == |multiset(s)| == |multiset(g)| == |g|;
    var r := NameNodes(g, parent, at);
    assert r[1..] == Children(s, at, Verbatim);
    ChildrenAscending(s, at, Verbatim);
    forall i, j | 1 <= i < j < |r|
      ensures KeyLe(r[i].name, r[j].name) && r[i].name != r[j].name
    {
      assert r[i] == r[1..][i - 1] && r[j] == r[1..][j - 1];
    }
  }

  /** The name children carry exactly the stored pairs, values unescaped. */
  lemma NameNodesContent(g: seq<Field>, parent: nat, at: nat, k: string, v: string)
    ensures Field(k, v) in g <==> Node(at, k, Some(v), []) in NameNodes(g, parent, at)[1..]
  {
    var s := KSort(g);
    var c := NameNodes(g, parent, at)[1..];
    KSortPermutes(g);
    assert c == Children(s, at, Verbatim);
    ChildrenAt(s, at, Verbatim);
    if Field(k, v) in g {
      assert Field(k, v) in multiset(s);
      var i :| 0 <= i < |s| && s[i] == Field(k, v);
      assert c[i] == Node(at, k, Some(v), []);
    }
    if Node(at, k, Some(v), []) in c {
      var i :| 0 <= i < |c| && c[i] == Node(at, k, Some(v), []);
      assert s[i] == Field(k, v);
      assert Field(k, v) in multiset(g);
    }
  }

  /** Set as prefix, last, first, the name children come out as first, last, prefix. */
  lemma NameOrderExample(parent: nat, at: nat)
    ensures NameNodes([Field("prefix", "Mr"), Field("last", "B"), Field("first", "A")], parent, at)
            == [Node(parent, "name", None, []),
                Node(at, "first", Some("A"), []),
                Node(at, "last", Some("B"), []),
                Node(at, "prefix", Some("Mr"), [])]
  {
    var g := [Field("prefix", "Mr"), Field("last", "B"), Field("first", "A")];
    var first, last, prefix := Field("first", "A"), Field("last", "B"), Field("prefix", "Mr");
    var sorted := [first, last, prefix];
    assert g[1..][1..] == [first] && g[1..] == [last, first];
    assert KSort([first]) == [first];
    assert !KeyLe(last.key, first.key);
    assert Insert(last, [first]) == [first] + Insert(last, []);
    assert KSort(g[1..]) == [first, last];
    assert !KeyLe(prefix.key, first.key) && !KeyLe(prefix.key, last.key);
    assert Insert(prefix, [first, last]) == [first] + Insert(prefix, [last]);
    assert KSort(g) == sorted;
    ChildrenAt(sorted, at, Verbatim);
    var c := Children(sorted, at, Verbatim);
    assert c == [c[0], c[1], c[2]];
  }
}
