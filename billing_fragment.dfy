/**
 * The rules of the billing fragment, as functions: the sticky "GBP" currency,
 * the normalisation of the expiry date, and the nodes the payment compiler
 * appends. Upper-casing and card-number stripping live in module Text.
 */
module BillingFragment {
  import opened Wrappers
  import opened Decimal
  import opened FieldStore
  import opened Document

  /**
   * setAmount, given the amount already converted to minor units: the group is
   * created if needed, `currencycode` becomes "GBP" only when it is unset or
   * PHP-empty, and `value` is always overwritten with the minor-unit text.
   */
  function SetAmount(o: Options, minorUnits: int): Options {
    SetWithDefault(o, "amount", "currencycode", "GBP", "value", IntString(minorUnits))
  }

  /** The stored amount reads back as the minor-unit count it was given. */
  lemma AmountValueRoundTrip(o: Options, minorUnits: int)
    ensures IsIntText(Lookup(SetAmount(o, minorUnits)["amount"].fields, "value").value)
    ensures ParseInt(Lookup(SetAmount(o, minorUnits)["amount"].fields, "value").value) == minorUnits
  {
    IntStringRoundTrip(minorUnits);
  }

  /** A currency chosen with setCurrency before setAmount survives it. */
  lemma CurrencySticky(o: Options, currency: string, minorUnits: int)
    requires !IsEmptyValue(Some(currency))
    ensures Lookup(SetAmount(SetSub(o, "amount", "currencycode", currency), minorUnits)["amount"].fields,
                   "currencycode") == Some(currency)
  {
  }

  // ---------------------------------------------------------------------
  // Expiry date

  /**
   * The shapes setPaymentExpiryDate accepts. An array is described by the four
   * entries the code may read: "month", "year", [0] and [1]; an entry that is
   * not set is None.
   */
  datatype ExpiryDate =
    | ArrayDate(month: Option<nat>, year: Option<nat>, at0: Option<nat>, at1: Option<nat>)
    | IntDate(timestamp: int)
    | TextDate(text: string)

  /** str_pad($month, 2, "0", STR_PAD_LEFT) on the month's decimal text. */
  function PadMonth(m: nat): (r: string)
    ensures |r| >= 2 && AllDigits(r)
    ensures ParseNat(r) == m
    ensures m >= 10 ==> r == NatString(m)
    ensures m < 10 ==> |r| == 2 && r == "0" + NatString(m)
  {
    NatStringRoundTrip(m);
    var s := NatString(m);
    if |s| < 2 then
      ParseNatLeadingZero(s);
      "0" + s
    else s
  }

  /** A year below 100 is read as 2000 + year; the last two digits are kept. */
  function WidenYear(y: nat): (r: nat)
    ensures r >= 100
    ensures r % 100 == y % 100
    ensures y >= 100 ==> r == y
    ensures y < 100 ==> r == 2000 + y
  {
    if y < 100 then 2000 + y else y
  }

  /** `$month."/".$year` after padding and widening. */
  function MonthSlashYear(m: nat, y: nat): string {
    PadMonth(m) + "/" + NatString(WidenYear(y))
  }

  /** The index of the first '/' in `s`, if there is one. */
  function FirstSlash(s: string): Option<nat>
    decreases |s|
  {
    if s == [] then None
    else if s[0] == '/' then Some(0)
    else match FirstSlash(s[1..])
      case Some(i) => Some(i + 1)
      case None => None
  }

  /** Behind a run of digits, the first '/' is the one that follows them. */
  lemma {:induction false} FirstSlashAfterDigits(p: string, q: string)
    requires AllDigits(p)
    ensures FirstSlash(p + "/" + q) == Some(|p|)
    decreases |p|
  {
    if p == [] {
      assert p + "/" + q == "/" + q;
    } else {
      assert AllDigits(p[1..]) by {
        forall i | 0 <= i < |p| - 1 ensures IsDigit(p[1..][i]) {
          assert p[1..][i] == p[i + 1];
        }
      }
      FirstSlashAfterDigits(p[1..], q);
      assert (p + "/" + q)[1..] == p[1..] + "/" + q;
    }
  }

  /** Reads "MM/YYYY" back: the digits before the first '/' and those after it. */
  function ParseExpiry(s: string): Option<(nat, nat)> {
    match FirstSlash(s)
    case None => None
    case Some(i) =>
      if i < |s| && AllDigits(s[..i]) && AllDigits(s[i + 1..]) then
        Some((ParseNat(s[..i]), ParseNat(s[i + 1..])))
      else None
  }

  /** The formatted date reads back as the month given and the widened year. */
  lemma ExpiryRoundTrip(m: nat, y: nat)
    ensures ParseExpiry(MonthSlashYear(m, y)) == Some((m, WidenYear(y)))
  {
    var p := PadMonth(m);
    var q := NatString(WidenYear(y));
    var s := MonthSlashYear(m, y);
    FirstSlashAfterDigits(p, q);
    assert s[..|p|] == p && s[|p| + 1..] == q;
    NatStringRoundTrip(WidenYear(y));
  }

  /**
   * PHP's is_numeric on a string, for the plain decimal forms: an optional
   * sign, then digits with at most one '.', and at least one digit.
   */
  predicate IsNumeric(s: string) {
    var body := if |s| > 0 && (s[0] == '+' || s[0] == '-') then s[1..] else s;
    (exists i :: 0 <= i < |body| && IsDigit(body[i])) &&
    (forall i :: 0 <= i < |body| ==> IsDigit(body[i]) || body[i] == '.') &&
    (forall i, j :: 0 <= i < j < |body| && body[i] == '.' ==> body[j] != '.')
  }

  /**
   * The string setPaymentExpiryDate stores. An array uses "month"/"year" when
   * "month" is set and [0]/[1] otherwise; an entry that is not set reads as
   * PHP null, which pads to "00" and widens to 2000 exactly as 0 does. An
   * integer or a numeric string goes through date("m/Y", …), which is the
   * parameter `monthYear`; any other string is stored unchanged.
   */
  function ExpiryText(d: ExpiryDate, monthYear: string -> string): string {
    match d
    case ArrayDate(month, year, at0, at1) =>
      if month.Some? then MonthSlashYear(month.value, year.GetOr(0))
      else MonthSlashYear(at0.GetOr(0), at1.GetOr(0))
    case IntDate(t) => monthYear(IntString(t))
    case TextDate(s) => if IsNumeric(s) then monthYear(s) else s
  }

  /**
   * Whichever array shape is given, the stored text reads back as the chosen
   * month and the widened year; keys win over positions whenever "month" is set.
   */
  lemma ArrayExpirySpec(d: ExpiryDate, monthYear: string -> string)
    requires d.ArrayDate?
    ensures d.month.Some? ==>
              ParseExpiry(ExpiryText(d, monthYear)) == Some((d.month.value, WidenYear(d.year.GetOr(0))))
    ensures d.month.None? ==>
              ParseExpiry(ExpiryText(d, monthYear)) == Some((d.at0.GetOr(0), WidenYear(d.at1.GetOr(0))))
  {
    if d.month.Some? {
      ExpiryRoundTrip(d.month.value, d.year.GetOr(0));
    } else {
      ExpiryRoundTrip(d.at0.GetOr(0), d.at1.GetOr(0));
    }
  }

  /** A string that is not numeric is stored exactly as given. */
  lemma TextExpiryUnchanged(s: string, monthYear: string -> string)
    requires !IsNumeric(s)
    ensures ExpiryText(TextDate(s), monthYear) == s
  {
  }

  /** [7, 23] and {month: 7, year: 2023} both become "07/2023". */
  lemma ExpiryExamples(monthYear: string -> string)
    ensures ExpiryText(ArrayDate(None, None, Some(7), Some(23)), monthYear) == "07/2023"
    ensures ExpiryText(ArrayDate(Some(7), Some(2023), None, None), monthYear) == "07/2023"
  {
    assert NatString(2023) == "2023";
  }

  // ---------------------------------------------------------------------
  // compilePayment

  /** The attributes of the payment node: `type`, escaped, when it is set. */
  function PaymentAttrs(sorted: seq<Field>, escape: string -> string): seq<Attribute> {
    match Lookup(sorted, "type")
    case Some(t) => [Attribute("type", escape(t))]
    case None => []
  }

  /**
   * What compilePayment appends under `parent` when the next free node index is
   * `at`: a `payment` node carrying the `type` attribute, then one escaped child
   * per remaining sub-key in ksort order.
   */
  function PaymentNodes(g: seq<Field>, parent: nat, at: nat, escape: string -> string): seq<Node> {
    var sorted := KSort(g);
    [Node(parent, "payment", None, PaymentAttrs(sorted, escape))] + Children(Remove(sorted, "type"), at, escape)
  }

  /** What compilePayment leaves in the store: the sorted group without `type`. */
  function PaymentAfterCompile(g: seq<Field>): seq<Field> {
    Remove(KSort(g), "type")
  }

  /** The payment node comes first and carries `type`, escaped, exactly when it is set. */
  lemma PaymentNodeSpec(g: seq<Field>, parent: nat, at: nat, escape: string -> string)
    requires DistinctKeys(g)
    ensures var n := PaymentNodes(g, parent, at, escape)[0];
              n.parent == parent && n.name == "payment" && n.text == None
    ensures Lookup(g, "type").Some? ==>
              PaymentNodes(g, parent, at, escape)[0].attrs == [Attribute("type", escape(Lookup(g, "type").value))]
    ensures Lookup(g, "type").None? ==> PaymentNodes(g, parent, at, escape)[0].attrs == []
  {
    KSortLookup(g, "type");
  }

  /** compilePayment keeps exactly the stored pairs other than `type`. */
  lemma PaymentAfterCompileMembers(g: seq<Field>)
    ensures forall f :: f in PaymentAfterCompile(g) <==> f in g && f.key != "type"
  {
    var s := KSort(g);
    KSortPermutes(g);
    RemoveMembers(s, "type");
    forall f ensures f in s <==> f in g {
      assert f in s <==> f in multiset(s);
    }
  }

  /** One child per stored pair other than `type`. */
  lemma PaymentChildrenCount(g: seq<Field>, parent: nat, at: nat, escape: string -> string)
    requires DistinctKeys(g)
    ensures |PaymentNodes(g, parent, at, escape)| == 1 + |g| - (if Lookup(g, "type").Some? then 1 else 0)
  {
    var s := KSort(g);
    KSortPermutes(g);
    KSortDistinct(g);
    KSortLookup(g, "type");
    assert |s| == |multiset(s)| == |multiset(g)| == |g|;
    RemoveLength(s, "type");
  }

  /**
   * Nothing else becomes a child: each child carries a stored sub-key other
   * than `type` with its value escaped.
   */
  lemma PaymentChildrenFromStore(g: seq<Field>, parent: nat, at: nat, escape: string -> string)
    requires DistinctKeys(g)
    ensures var r := PaymentNodes(g, parent, at, escape)[1..];
              forall i :: 0 <= i < |r| ==>
                r[i].name != "type" && Lookup(g, r[i].name).Some? &&
                r[i] == Node(at, r[i].name, Some(escape(Lookup(g, r[i].name).value)), [])
  {
    var kept := PaymentAfterCompile(g);
    PaymentAfterCompileMembers(g);
    var r := PaymentNodes(g, parent, at, escape)[1..];
    assert r == Children(kept, at, escape);
    ChildrenAt(kept, at, escape);
    forall i | 0 <= i < |r|
      ensures r[i].name != "type" && Lookup(g, r[i].name).Some? &&
              r[i] == Node(at, r[i].name, Some(escape(Lookup(g, r[i].name).value)), [])
    {
      var f := kept[i];
      assert f in kept;
      LookupMember(g, f.key, f.value);
    }
  }

  /**
   * The children of the payment node are the stored pairs other than `type`,
   * values escaped, keys strictly ascending, and none of them is `type`.
   */
  lemma PaymentChildrenSpec(g: seq<Field>, parent: nat, at: nat, escape: string -> string)
    requires DistinctKeys(g)
    ensures var r := PaymentNodes(g, parent, at, escape)[1..];
              forall i, j :: 0 <= i < j < |r| ==> KeyLe(r[i].name, r[j].name) && r[i].name != r[j].name
    ensures var r := PaymentNodes(g, parent, at, escape)[1..];
              forall i :: 0 <= i < |r| ==> r[i].name != "type" && r[i].parent == at
    ensures var r := PaymentNodes(g, parent, at, escape)[1..];
              forall k, v :: Field(k, v) in g && k != "type" ==> Node(at, k, Some(escape(v)), []) in r
  {
    var s := KSort(g);
    KSortSpec(g);
    var kept := Remove(s, "type");
    RemoveSorted(s, "type");
    RemoveMembers(s, "type");
    RemoveDistinct(s, "type");
    var r := PaymentNodes(g, parent, at, escape)[1..];
    assert r == Children(kept, at, escape);
    ChildrenAt(kept, at, escape);
    ChildrenAscending(kept, at, escape);
    forall i | 0 <= i < |r| ensures r[i].name != "type" {
      assert r[i].name == kept[i].key && kept[i] in kept;
    }
    forall k, v | Field(k, v) in g && k != "type" ensures Node(at, k, Some(escape(v)), []) in r {
      assert Field(k, v) in multiset(s);
      ChildrenMember(kept, at, escape, k, v);
    }
  }

  /**
   * compilePayment is not idempotent: once compiled, the stored group has no
   * `type`, so compiling again gives the same children but no `type` attribute,
   * and nothing at all when `type` was the only sub-key.
   */
  lemma PaymentRecompile(g: seq<Field>, parent: nat, at: nat, escape: string -> string)
    requires DistinctKeys(g)
    ensures Lookup(PaymentAfterCompile(g), "type") == None
    ensures PaymentNodes(PaymentAfterCompile(g), parent, at, escape)[1..] == PaymentNodes(g, parent, at, escape)[1..]
    ensures PaymentNodes(PaymentAfterCompile(g), parent, at, escape)[0].attrs == []
    ensures PaymentAfterCompile(PaymentAfterCompile(g)) == PaymentAfterCompile(g)
    ensures (forall i :: 0 <= i < |g| ==> g[i].key == "type") ==> PaymentAfterCompile(g) == []
  {
    var s := KSort(g);
    var kept := Remove(s, "type");
    KSortSorted(g);
    RemoveSorted(s, "type");
    RemoveMembers(s, "type");
    KSortFixesSorted(kept);
    assert KSort(kept) == kept;
    RemoveNothing(kept, "type");
    if forall i :: 0 <= i < |g| ==> g[i].key == "type" {
      KSortPermutes(g);
    }
  }

  /** Removing a key that is not there changes nothing. */
  lemma {:induction false} RemoveNothing(g: seq<Field>, k: string)
    requires Lookup(g, k) == None
    ensures Remove(g, k) == g
    decreases |g|
  {
    if g != [] {
      RemoveNothing(g[1..], k);
      assert g == [g[0]] + g[1..];
    }
  }
}
