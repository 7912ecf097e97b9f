/**
 * The billing fragment as an object: one mutable `options` store, the
 * builder setters that normalise values on the way in and return the object
 * itself, and the compilers that append nodes to a parent element. The setters
 * inherited from the addressable fragment and those of the billing fragment
 * share the one store, as they do in the source.
 */
module Fragment {
  import opened Wrappers
  import opened Decimal
  import opened Text
  import opened FieldStore
  import opened Document
  import opened AddressFragment
  import opened BillingFragment

  /**
   * The kind of one stored entry: address keys hold scalars, the four group
   * keys hold groups with distinct sub-keys; no other key is stored.
   */
  predicate ShapeOk(k: string, e: Entry) {
    || (IsAddressKey(k) && e.Scalar?)
    || (IsGroupKey(k) && e.Group? && DistinctKeys(e.fields))
  }

  /** A telephone group has a type and an amount group has a currency code. */
  predicate DefaultsOk(k: string, e: Entry) {
    && (k == "telephone" ==> e.Group? && Lookup(e.fields, "type").Some?)
    && (k == "amount" ==> e.Group? && Lookup(e.fields, "currencycode").Some?)
  }

  predicate EntryOk(k: string, e: Entry) {
    ShapeOk(k, e) && DefaultsOk(k, e)
  }

  /** The shape every setter keeps: every stored entry is in shape. */
  predicate WellFormed(o: Options) {
    forall k :: k in o ==> EntryOk(k, o[k])
  }

  /** Storing an entry that is in shape keeps the store well formed. */
  lemma StoreWellFormed(o: Options, k: string, e: Entry)
    requires WellFormed(o) && EntryOk(k, e)
    ensures WellFormed(o[k := e])
  {
  }

  /** An address setter keeps the store well formed. */
  lemma SetScalarWellFormed(o: Options, k: string, v: string)
    requires WellFormed(o) && IsAddressKey(k)
    ensures WellFormed(o[k := Scalar(v)])
  {
    StoreWellFormed(o, k, Scalar(v));
  }

  /** A stored group key's entry is a group with distinct sub-keys. */
  lemma StoredGroupDistinct(o: Options, name: string)
    requires WellFormed(o) && IsGroupKey(name)
    ensures DistinctKeys(GroupOf(o, name))
  {
    GroupKeyNotAddress(name);
    if name in o {
      assert ShapeOk(name, o[name]);
    }
  }

  /**
   * The group a sub-key setter stores is in shape, provided that a telephone
   * group is only created by writing its type and an amount group only by
   * writing its currency code, as setTelephoneType and setCurrency do.
   */
  lemma SetSubEntryOk(o: Options, name: string, k: string, v: string)
    requires WellFormed(o) && IsGroupKey(name)
    requires name == "telephone" && name !in o ==> k == "type"
    requires name == "amount" && name !in o ==> k == "currencycode"
    ensures EntryOk(name, Group(Put(GroupOf(o, name), k, v)))
  {
    var g := GroupOf(o, name);
    StoredGroupDistinct(o, name);
    PutDistinct(g, k, v);
    assert ShapeOk(name, Group(Put(g, k, v)));
    if name in o {
      assert DefaultsOk(name, o[name]);
    }
  }

  /** A sub-key setter keeps the store well formed, under SetSubEntryOk's conditions. */
  lemma SetSubWellFormed(o: Options, name: string, k: string, v: string)
    requires WellFormed(o) && IsGroupKey(name)
    requires name == "telephone" && name !in o ==> k == "type"
    requires name == "amount" && name !in o ==> k == "currencycode"
    ensures WellFormed(SetSub(o, name, k, v))
  {
    SetSubEntryOk(o, name, k, v);
    StoreWellFormed(o, name, Group(Put(GroupOf(o, name), k, v)));
  }

  /**
   * setTelephone and setAmount keep the store well formed: whatever the group
   * held before, its defaulted sub-key is set afterwards.
   */
  lemma SetWithDefaultWellFormed(o: Options, name: string, dk: string, d: string, k: string, v: string)
    requires WellFormed(o) && IsGroupKey(name) && k != dk
    requires name == "telephone" ==> dk == "type"
    requires name == "amount" ==> dk == "currencycode"
    ensures WellFormed(SetWithDefault(o, name, dk, d, k, v))
  {
    var e := Group(Put(PutIfEmpty(GroupOf(o, name), dk, d), k, v));
    SetWithDefaultEntryOk(o, name, dk, d, k, v);
    StoreWellFormed(o, name, e);
  }

  /** The group setTelephone or setAmount stores is in shape. */
  lemma SetWithDefaultEntryOk(o: Options, name: string, dk: string, d: string, k: string, v: string)
    requires WellFormed(o) && IsGroupKey(name) && k != dk
    requires name == "telephone" ==> dk == "type"
    requires name == "amount" ==> dk == "currencycode"
    ensures SetWithDefault(o, name, dk, d, k, v)[name] == Group(Put(PutIfEmpty(GroupOf(o, name), dk, d), k, v))
    ensures EntryOk(name, SetWithDefault(o, name, dk, d, k, v)[name])
  {
    StoredGroupDistinct(o, name);
  }

  /** ksort on a stored group keeps the store well formed. */
  lemma SortGroupWellFormed(o: Options, name: string)
    requires WellFormed(o) && name in o && IsGroupKey(name)
    ensures WellFormed(o[name := Group(KSort(o[name].fields))])
  {
    var g := o[name].fields;
    GroupKeyNotAddress(name);
    assert EntryOk(name, o[name]);
    KSortDistinct(g);
    KSortLookup(g, "type");
    KSortLookup(g, "currencycode");
    StoreWellFormed(o, name, Group(KSort(g)));
  }

  /** compilePayment's ksort and unset of `type` keep the store well formed. */
  lemma PaymentCompileWellFormed(o: Options)
    requires WellFormed(o) && "payment" in o
    ensures WellFormed(o["payment" := Group(PaymentAfterCompile(o["payment"].fields))])
  {
    var g := o["payment"].fields;
    GroupKeyNotAddress("payment");
    assert EntryOk("payment", o["payment"]);
    KSortDistinct(g);
    RemoveDistinct(KSort(g), "type");
    StoreWellFormed(o, "payment", Group(PaymentAfterCompile(g)));
  }

  /**
   * The `foreach … addChild` loop of the compilers: one child under `parent`
   * per pair, in the group's order, with its value passed through `f`.
   */
  method AppendChildren(doc: Tree, parent: nat, fields: seq<Field>, f: string -> string)
    requires parent < |doc.nodes|
    modifies doc
    ensures doc.nodes == old(doc.nodes) + Children(fields, parent, f)
  {
    var i := 0;
    while i < |fields|
      invariant 0 <= i <= |fields|
      invariant doc.nodes == old(doc.nodes) + Children(fields[..i], parent, f)
    {
      var _ := doc.AddChild(parent, fields[i].key, Some(f(fields[i].value)));
      assert fields[..i + 1][..i] == fields[..i];
      i := i + 1;
    }
    assert fields[..|fields|] == fields;
  }

  /** The appending half of compileName: the `name` node, then its children in ksort order. */
  method AppendNameNodes(doc: Tree, element: nat, g: seq<Field>)
    requires element < |doc.nodes|
    modifies doc
    ensures doc.nodes == old(doc.nodes) + NameNodes(g, element, old(|doc.nodes|))
  {
    var sorted := KSort(g);
    var node := doc.AddChild(element, "name", None);
    AppendChildren(doc, node, sorted, Verbatim);
  }

  /** The `payment` node, with the escaped `type` attribute added when `type` is set. */
  method AppendPaymentNode(doc: Tree, element: nat, sorted: seq<Field>, escape: string -> string)
    returns (node: nat)
    requires element < |doc.nodes|
    modifies doc
    ensures node == old(|doc.nodes|)
    ensures doc.nodes == old(doc.nodes) + [Node(element, "payment", None, PaymentAttrs(sorted, escape))]
  {
    node := doc.AddChild(element, "payment", None);
    var kind := Lookup(sorted, "type");
    if kind.Some? {
      var attr := Attribute("type", escape(kind.value));
      doc.AddAttribute(node, "type", attr.value);
      assert [] + [attr] == [attr];
    }
  }

  /**
   * The appending half of compilePayment: the `payment` node with its `type`
   * attribute when set, then the other sub-keys in ksort order, escaped.
   */
  method AppendPaymentNodes(doc: Tree, element: nat, g: seq<Field>, escape: string -> string)
    requires element < |doc.nodes|
    modifies doc
    ensures doc.nodes == old(doc.nodes) + PaymentNodes(g, element, old(|doc.nodes|), escape)
  {
    var sorted := KSort(g);
    var node := AppendPaymentNode(doc, element, sorted, escape);
    AppendChildren(doc, node, Remove(sorted, "type"), escape);
  }

  class Billing {
    var options: Options
    /** The fragment's escaping function; its definition is not part of this model. */
    const escape: string -> string
    /** date("m/Y", t) on a numeric timestamp text; it depends on the clock's time zone. */
    const monthYear: string -> string

    predicate Valid()
      reads this
    {
      WellFormed(options)
    }

    constructor (escape: string -> string, monthYear: string -> string)
      ensures Valid() && options == map[]
      ensures this.escape == escape && this.monthYear == monthYear
    {
      options := map[];
      this.escape := escape;
      this.monthYear := monthYear;
    }

    // -------------------------------------------------------------------
    // Address scalars: each writes its own key and nothing else.

    method SetEmail(email: string) returns (self: Billing)
      requires Valid()
      modifies this
      ensures Valid() && self == this
      ensures options == old(options)[AddressKey(Email) := Scalar(email)]
    {
      SetScalarWellFormed(options, AddressKey(Email), email);
      options := options[AddressKey(Email) := Scalar(email)];
      self := this;
    }

    method SetPremise(premise: string) returns (self: Billing)
      requires Valid()
      modifies this
      ensures Valid() && self == this
      ensures options == old(options)[AddressKey(Premise) := Scalar(premise)]
    {
      SetScalarWellFormed(options, AddressKey(Premise), premise);
      options := options[AddressKey(Premise) := Scalar(premise)];
      self := this;
    }

    method SetStreet(street: string) returns (self: Billing)
      requires Valid()
      modifies this
      ensures Valid() && self == this
      ensures options == old(options)[AddressKey(Street) := Scalar(street)]
    {
      SetScalarWellFormed(options, AddressKey(Street), street);
      options := options[AddressKey(Street) := Scalar(street)];
      self := this;
    }

    method SetTown(town: string) returns (self: Billing)
      requires Valid()
      modifies this
      ensures Valid() && self == this
      ensures options == old(options)[AddressKey(Town) := Scalar(town)]
    {
      SetScalarWellFormed(options, AddressKey(Town), town);
      options := options[AddressKey(Town) := Scalar(town)];
      self := this;
    }

    method SetCounty(county: string) returns (self: Billing)
      requires Valid()
      modifies this
      ensures Valid() && self == this
      ensures options == old(options)[AddressKey(County) := Scalar(county)]
    {
      SetScalarWellFormed(options, AddressKey(County), county);
      options := options[AddressKey(County) := Scalar(county)];
      self := this;
    }

    method SetPostcode(postcode: string) returns (self: Billing)
      requires Valid()
      modifies this
      ensures Valid() && self == this
      ensures options == old(options)[AddressKey(Postcode) := Scalar(postcode)]
    {
      SetScalarWellFormed(options, AddressKey(Postcode), postcode);
      options := options[AddressKey(Postcode) := Scalar(postcode)];
      self := this;
    }

    method SetCountry(country: string) returns (self: Billing)
      requires Valid()
      modifies this
      ensures Valid() && self == this
      ensures options == old(options)[AddressKey(Country) := Scalar(country)]
    {
      SetScalarWellFormed(options, AddressKey(Country), country);
      options := options[AddressKey(Country) := Scalar(country)];
      self := this;
    }

    // -------------------------------------------------------------------
    // Name: each setter creates the group on first use and writes one sub-key.

    method SetNamePrefix(prefix: string) returns (self: Billing)
      requires Valid()
      modifies this
      ensures Valid() && self == this
      ensures options == SetSub(old(options), "name", NameKey(Prefix), prefix)
    {
      SetSubWellFormed(options, "name", NameKey(Prefix), prefix);
      options := SetSub(options, "name", NameKey(Prefix), prefix);
      self := this;
    }

    method SetFirstName(first: string) returns (self: Billing)
      requires Valid()
      modifies this
      ensures Valid() && self == this
      ensures options == SetSub(old(options), "name", NameKey(First), first)
    {
      SetSubWellFormed(options, "name", NameKey(First), first);
      options := SetSub(options, "name", NameKey(First), first);
      self := this;
    }

    method SetMiddleName(middle: string) returns (self: Billing)
      requires Valid()
      modifies this
      ensures Valid() && self == this
      ensures options == SetSub(old(options), "name", NameKey(Middle), middle)
    {
      SetSubWellFormed(options, "name", NameKey(Middle), middle);
      options := SetSub(options, "name", NameKey(Middle), middle);
      self := this;
    }

    method SetLastName(last: string) returns (self: Billing)
      requires Valid()
      modifies this
      ensures Valid() && self == this
      ensures options == SetSub(old(options), "name", NameKey(Last), last)
    {
      SetSubWellFormed(options, "name", NameKey(Last), last);
      options := SetSub(options, "name", NameKey(Last), last);
      self := this;
    }

    method SetNameSuffix(suffix: string) returns (self: Billing)
      requires Valid()
      modifies this
      ensures Valid() && self == this
      ensures options == SetSub(old(options), "name", NameKey(Suffix), suffix)
    {
      SetSubWellFormed(options, "name", NameKey(Suffix), suffix);
      options := SetSub(options, "name", NameKey(Suffix), suffix);
      self := this;
    }

    // -------------------------------------------------------------------
    // Telephone

    method SetTelephone(phone: string) returns (self: Billing)
      requires Valid()
      modifies this
      ensures Valid() && self == this
      ensures options == AddressFragment.SetTelephone(old(options), phone)
    {
      SetWithDefaultWellFormed(options, "telephone", "type", "H", "number", phone);
      options := AddressFragment.SetTelephone(options, phone);
      self := this;
    }

    method SetTelephoneType(kind: string) returns (self: Billing)
      requires Valid()
      modifies this
      ensures Valid() && self == this
      ensures options == SetSub(old(options), "telephone", "type", kind)
    {
      SetSubWellFormed(options, "telephone", "type", kind);
      options := SetSub(options, "telephone", "type", kind);
      self := this;
    }

    // -------------------------------------------------------------------
    // Amount

    /** `minorUnits` is the amount already converted to pence (or cents). */
    method SetAmount(minorUnits: int) returns (self: Billing)
      requires Valid()
      modifies this
      ensures Valid() && self == this
      ensures options == BillingFragment.SetAmount(old(options), minorUnits)
    {
      SetWithDefaultWellFormed(options, "amount", "currencycode", "GBP", "value", IntString(minorUnits));
      options := BillingFragment.SetAmount(options, minorUnits);
      self := this;
    }

    method SetCurrency(currency: string) returns (self: Billing)
      requires Valid()
      modifies this
      ensures Valid() && self == this
      ensures options == SetSub(old(options), "amount", "currencycode", currency)
    {
      SetSubWellFormed(options, "amount", "currencycode", currency);
      options := SetSub(options, "amount", "currencycode", currency);
      self := this;
    }

    // -------------------------------------------------------------------
    // Payment

    method SetPaymentType(kind: string) returns (self: Billing)
      requires Valid()
      modifies this
      ensures Valid() && self == this
      ensures options == SetSub(old(options), "payment", "type", ToUpper(kind))
    {
      SetSubWellFormed(options, "payment", "type", ToUpper(kind));
      options := SetSub(options, "payment", "type", ToUpper(kind));
      self := this;
    }

    method SetPaymentCardNumber(number: string) returns (self: Billing)
      requires Valid()
      modifies this
      ensures Valid() && self == this
      ensures options == SetSub(old(options), "payment", "pan", StripSeparators(number))
    {
      SetSubWellFormed(options, "payment", "pan", StripSeparators(number));
      options := SetSub(options, "payment", "pan", StripSeparators(number));
      self := this;
    }

    method SetPaymentExpiryDate(date: ExpiryDate) returns (self: Billing)
      requires Valid()
      modifies this
      ensures Valid() && self == this
      ensures options == SetSub(old(options), "payment", "expirydate", ExpiryText(date, monthYear))
    {
      SetSubWellFormed(options, "payment", "expirydate", ExpiryText(date, monthYear));
      options := SetSub(options, "payment", "expirydate", ExpiryText(date, monthYear));
      self := this;
    }

    method SetPaymentSecurityCode(code: string) returns (self: Billing)
      requires Valid()
      modifies this
      ensures Valid() && self == this
      ensures options == SetSub(old(options), "payment", "securitycode", code)
    {
      SetSubWellFormed(options, "payment", "securitycode", code);
      options := SetSub(options, "payment", "securitycode", code);
      self := this;
    }

    // -------------------------------------------------------------------
    // Compilers

    /**
     * compileName: nothing when the group is absent or empty; otherwise the
     * stored group is ksorted in place and a `name` node with one unescaped
     * child per sub-key is appended.
     */
    method CompileName(doc: Tree, element: nat) returns (ok: bool)
      requires Valid() && element < |doc.nodes|
      modifies this, doc
      ensures Valid()
      ensures ok == !IsEmptyGroup(old(options), "name")
      ensures !ok ==> options == old(options) && doc.nodes == old(doc.nodes)
      ensures ok ==> options == old(options)["name" := Group(KSort(GroupOf(old(options), "name")))]
      ensures ok ==> doc.nodes == old(doc.nodes) + NameNodes(GroupOf(old(options), "name"), element, old(|doc.nodes|))
    {
      if IsEmptyGroup(options, "name") {
        return false;
      }
      var g := options["name"].fields;
      SortGroupWellFormed(options, "name");
      options := options["name" := Group(KSort(g))];
      AppendNameNodes(doc, element, g);
      return true;
    }

    /**
     * compileTelephone: nothing when the group is absent; otherwise one
     * `telephone` node with the escaped number and an escaped `type` attribute.
     * A number never set reads as PHP null, whose text is the empty string.
     */
    method CompileTelephone(doc: Tree, element: nat) returns (ok: bool)
      requires Valid() && element < |doc.nodes|
      modifies doc
      ensures ok == ("telephone" in options)
      ensures !ok ==> doc.nodes == old(doc.nodes)
      ensures ok ==> doc.nodes == old(doc.nodes) + [
        Node(element, "telephone", Some(escape(Lookup(options["telephone"].fields, "number").GetOr(""))),
             [Attribute("type", escape(Lookup(options["telephone"].fields, "type").value))])]
    {
      if IsEmptyGroup(options, "telephone") {
        return false;
      }
      var g := options["telephone"].fields;
      var text := Some(escape(Lookup(g, "number").GetOr("")));
      var attr := Attribute("type", escape(Lookup(g, "type").value));
      var node := doc.AddChild(element, "telephone", text);
      doc.AddAttribute(node, "type", attr.value);
      assert [] + [attr] == [attr];
      assert doc.nodes == old(doc.nodes) + [Node(element, "telephone", text, [attr])];
      return true;
    }

    /**
     * compileAmount: nothing when the group is absent; otherwise one `amount`
     * node with the escaped value and an escaped `currencycode` attribute.
     * A value never set (only setCurrency was called) reads as the empty string.
     */
    method CompileAmount(doc: Tree, element: nat) returns (ok: bool)
      requires Valid() && element < |doc.nodes|
      modifies doc
      ensures ok == ("amount" in options)
      ensures !ok ==> doc.nodes == old(doc.nodes)
      ensures ok ==> doc.nodes == old(doc.nodes) + [
        Node(element, "amount", Some(escape(Lookup(options["amount"].fields, "value").GetOr(""))),
             [Attribute("currencycode", escape(Lookup(options["amount"].fields, "currencycode").value))])]
    {
      if IsEmptyGroup(options, "amount") {
        return false;
      }
      var g := options["amount"].fields;
      var text := Some(escape(Lookup(g, "value").GetOr("")));
      var attr := Attribute("currencycode", escape(Lookup(g, "currencycode").value));
      var node := doc.AddChild(element, "amount", text);
      doc.AddAttribute(node, "currencycode", attr.value);
      assert [] + [attr] == [attr];
      assert doc.nodes == old(doc.nodes) + [Node(element, "amount", text, [attr])];
      return true;
    }

    /**
     * compilePayment: nothing when the group is absent or empty; otherwise the
     * group is ksorted, a `payment` node is appended with `type` as an escaped
     * attribute, `type` is unset from the store, and each remaining sub-key
     * becomes an escaped child.
     */
    method CompilePayment(doc: Tree, element: nat) returns (ok: bool)
      requires Valid() && element < |doc.nodes|
      modifies this, doc
      ensures Valid()
      ensures ok == !IsEmptyGroup(old(options), "payment")
      ensures !ok ==> options == old(options) && doc.nodes == old(doc.nodes)
      ensures ok ==> options == old(options)["payment" := Group(PaymentAfterCompile(GroupOf(old(options), "payment")))]
      ensures ok ==> doc.nodes == old(doc.nodes) + PaymentNodes(GroupOf(old(options), "payment"), element, old(|doc.nodes|), escape)
    {
      if IsEmptyGroup(options, "payment") {
        return false;
      }
      var g := options["payment"].fields;
      PaymentCompileWellFormed(options);
      options := options["payment" := Group(PaymentAfterCompile(g))];
      AppendPaymentNodes(doc, element, g, escape);
      return true;
    }
  }

  /**
   * A chain of setters on a fresh fragment, then the telephone compiler: the
   * number is stored and compiled with the default type "H".
   */
  method TelephoneDefaultExample(escape: string -> string, monthYear: string -> string) returns (doc: Tree)
    ensures doc.nodes == [Node(0, "billing", None, []),
                          Node(0, "telephone", Some(escape("0123")), [Attribute("type", escape("H"))])]
  {
    doc := new Tree("billing");
    var b := new Billing(escape, monthYear);
    assert GroupOf(b.options, "telephone") == [];
    var same := b.SetTelephone("0123");
    assert Lookup(b.options["telephone"].fields, "type") == Some("H");
    var ok := b.CompileTelephone(doc, 0);
  }

  /** A type set before the number is kept by setTelephone. */
  method TelephoneTypeKeptExample(escape: string -> string, monthYear: string -> string) returns (b: Billing)
    ensures "telephone" in b.options && b.options["telephone"].Group?
    ensures Lookup(b.options["telephone"].fields, "type") == Some("M")
    ensures Lookup(b.options["telephone"].fields, "number") == Some("0123")
  {
    b := new Billing(escape, monthYear);
    var b1 := b.SetTelephoneType("M");
    var b2 := b1.SetTelephone("0123");
  }
}
