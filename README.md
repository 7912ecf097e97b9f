# Billing fragment of the STPP request builder

This project is a Dafny model of the billing fragment of a PHP wrapper for the
STPP payment protocol. The fragment is an object holding one `options` store:

- Builder setters fill the store and return the object itself. The address
  setters are inherited from the addressable fragment; the amount and payment
  setters belong to the billing fragment.
- Compilers turn the store into child nodes of a parent XML element.

The modules follow the source's structure:

- `FieldStore`: the `options` store. Top-level keys hold a scalar (the
  address fields) or a group (`name`, `telephone`, `amount`, `payment`).
  - A group is an ordered list of sub-key/value pairs with distinct keys, as
    a PHP array is.
  - It has the array operations the fragment uses: assignment (overwrite in
    place or append), `unset`, the `empty()` test, the sticky default
    `if(empty(…)) … = default` and `ksort`.
  - `ksort` is insertion sort. It is proved to produce a sorted permutation
    that keeps the keys distinct and answers every lookup as before.
- `Decimal`, `Text`: the value normalisations.
  - Decimal text of integers, with parsers proved to read it back.
  - `strtoupper`.
  - Removal of spaces and hyphens from card numbers.
- `Document`: the part of the XML element the compilers use, an append-only
  tree with `addChild` and `addAttribute`.
- `AddressFragment`, `BillingFragment`: the rules of the setters and
  compilers as pure functions, with their properties:
  - the sticky `"H"` telephone type and the sticky `"GBP"` currency;
  - the round trip of the stored amount;
  - the expiry-date normalisation and its round trip;
  - the order and content of the compiled name and payment nodes.
- `Fragment`: the class `Billing`. Its field `options` is updated in place by
  every setter; each setter is proved to keep the store well formed and to
  match the function that specifies it. The compile methods work on a
  `Document.Tree` and are proved to append exactly the nodes the
  specification functions describe. The `foreach … addChild` loop is a
  `while` loop with its invariants.

The model follows the code on these points, which the comments and
documentation of the library leave implicit:

- Compiling changes the store. `compileName` and `compilePayment` ksort their
  group in place, and `compilePayment` unsets `type` from the payment group.
  Compiling the payment a second time therefore gives no `type` attribute
  (`BillingFragment.PaymentRecompile`).
- `compileName` writes the name values without escaping them. The other
  compilers escape both text and attributes.
- The defaults `"H"` and `"GBP"` are written whenever the stored value is
  PHP-empty (unset, `""` or `"0"`), not only when the group is first created.

## Model

| member | source | states |
|---|---|---|
| FieldStore.Put | lib/Fragment/AddressFragmentAbstract.php:103 | the written key looks up to the new value, every other key looks up as before; a new key is appended at the end, and writing an existing key keeps the length (its position is stated by PutInPlace) |
| FieldStore.PutMembers | lib/Fragment/AddressFragmentAbstract.php:103 | every pair after the write was there before or is the pair written |
| FieldStore.PutDistinct | lib/Fragment/AddressFragmentAbstract.php:103 | writing a key keeps the keys of a group distinct |
| FieldStore.PutInPlace | lib/Fragment/AddressFragmentAbstract.php:103 | with distinct keys, writing a key that is already set overwrites its pair where it stands and every other pair keeps its position |
| FieldStore.Remove | lib/Fragment/Billing.php:185 | after unset the key is absent and every other key looks up as before |
| FieldStore.RemoveMembers | lib/Fragment/Billing.php:185 | unset keeps exactly the pairs whose key differs from the removed one |
| FieldStore.LookupAbsent | lib/Fragment/Billing.php:182 | a key no pair carries reads as unset |
| FieldStore.RemoveLength | lib/Fragment/Billing.php:185 | with distinct keys, unset drops exactly one pair when the key is set and none otherwise |
| FieldStore.RemoveDistinct | lib/Fragment/Billing.php:185 | unset keeps the keys of a group distinct |
| FieldStore.RemoveBound | lib/Fragment/Billing.php:185 | a lower bound on the keys of a group still bounds them after unset |
| FieldStore.RemoveSorted | lib/Fragment/Billing.php:178-185 | unset on a ksorted group leaves it sorted |
| FieldStore.LookupMember | lib/Fragment/AddressFragmentAbstract.php:210 | in a group with distinct keys, a key looks up to a value exactly when that pair is in the group |
| FieldStore.SetSub | lib/Fragment/AddressFragmentAbstract.php:98-106 | the group is created as a one-pair group when absent; the written sub-key holds the value; other sub-keys and other top-level keys are unchanged; distinct keys stay distinct |
| FieldStore.SetDefault | lib/Fragment/AddressFragmentAbstract.php:171-175 | the group is created if needed; the default is written exactly when the stored value is unset, "" or "0", and the group is unchanged otherwise; other sub-keys and top-level keys are kept |
| FieldStore.SetWithDefault | lib/Fragment/AddressFragmentAbstract.php:169-180 | the shared shape of setTelephone and setAmount: the written sub-key always holds the value; the default sub-key gets the default exactly when it was unset, "" or "0" and is kept otherwise; other sub-keys and top-level keys are unchanged; distinct keys stay distinct |
| FieldStore.PutIfEmpty | lib/Fragment/AddressFragmentAbstract.php:174-175 | the default is written exactly when the stored value is unset, "" or "0"; otherwise the group is unchanged; other keys are never touched |
| FieldStore.KeyLeTotal | lib/Fragment/AddressFragmentAbstract.php:206 | any two keys are comparable in the key order ksort uses |
| FieldStore.KeyLeAntisymmetric | lib/Fragment/AddressFragmentAbstract.php:206 | two keys each at most the other are equal |
| FieldStore.KeyLeTransitive | lib/Fragment/AddressFragmentAbstract.php:206 | the key order is transitive |
| FieldStore.KSortSorted | lib/Fragment/AddressFragmentAbstract.php:206 | ksort yields a group sorted by key |
| FieldStore.KSortPermutes | lib/Fragment/AddressFragmentAbstract.php:206 | ksort yields the same pairs, as a multiset |
| FieldStore.InsertAvoids | lib/Fragment/AddressFragmentAbstract.php:206 | insertion adds no key other than the inserted one |
| FieldStore.InsertDistinct | lib/Fragment/AddressFragmentAbstract.php:206 | inserting a pair with a new key keeps the keys distinct |
| FieldStore.KSortDistinct | lib/Fragment/AddressFragmentAbstract.php:206 | ksort keeps the keys distinct |
| FieldStore.KSortLookup | lib/Fragment/Billing.php:178-183 | after ksort a key looks up to the value it had before |
| FieldStore.KSortSpec | lib/Fragment/AddressFragmentAbstract.php:206 | ksort is sorted, keeps keys distinct, is a permutation and preserves every lookup |
| FieldStore.KSortFixesSorted | lib/Fragment/AddressFragmentAbstract.php:206 | a group already sorted is left unchanged by ksort |
| FieldStore.KSortIdempotent | lib/Fragment/AddressFragmentAbstract.php:206 | ksort applied twice is ksort applied once |
| Decimal.NatString | lib/Fragment/Billing.php:39 | the decimal text of a natural is non-empty digits without a leading zero, one digit exactly below ten |
| Decimal.NatStringRoundTrip | lib/Fragment/Billing.php:39 | the decimal text of a natural parses back to it |
| Decimal.ParseNatLeadingZero | lib/Fragment/Billing.php:123 | left-padding digits with "0" keeps them digits and keeps their value |
| Decimal.IntStringShape | lib/Fragment/Billing.php:39 | the text of an integer starts with '-' exactly when it is negative, and the rest is digits |
| Decimal.IntStringRoundTrip | lib/Fragment/Billing.php:39 | the text of any integer parses back to that integer |
| Text.UpperChar | lib/Fragment/Billing.php:68 | a lower-case letter becomes its own capital (same distance from 'A' as from 'a'); any other character is kept; the result is never lower-case |
| Text.ToUpperShape | lib/Fragment/Billing.php:68 | strtoupper keeps the length, maps each character by UpperChar and leaves no lower-case letter |
| Text.ToUpperFixes | lib/Fragment/Billing.php:68 | strtoupper leaves a string without lower-case letters unchanged |
| Text.ToUpperIdempotent | lib/Fragment/Billing.php:68 | strtoupper applied twice equals strtoupper applied once |
| Text.StripSeparators | lib/Fragment/Billing.php:82-88 | the stored card number contains no space or hyphen and is no longer than the input |
| Text.StripAppend | lib/Fragment/Billing.php:88 | stripping a concatenation is the concatenation of the stripped parts, so order is kept |
| Text.StripFixes | lib/Fragment/Billing.php:88 | a number without separators is stored unchanged |
| Text.StripIdempotent | lib/Fragment/Billing.php:88 | stripping twice equals stripping once |
| Text.StripCounts | lib/Fragment/Billing.php:82-88 | every non-separator character occurs as often as in the input, and separators not at all |
| Document.Children | lib/Fragment/AddressFragmentAbstract.php:210-211 | the loop appends one node per pair |
| Document.ChildrenAt | lib/Fragment/AddressFragmentAbstract.php:210-211 | the i-th appended node has the i-th key as its name and the mapped i-th value as its text |
| Document.ChildrenAscending | lib/Fragment/AddressFragmentAbstract.php:206-211 | the children of a ksorted group have strictly ascending names |
| Document.ChildrenMember | lib/Fragment/AddressFragmentAbstract.php:210-211 | every pair of the group has its child node |
| Document.Tree.AddChild | lib/Fragment/AddressFragmentAbstract.php:208 | addChild appends exactly one node under the parent and returns its index |
| Document.Tree.AddAttribute | lib/Fragment/AddressFragmentAbstract.php:226 | addAttribute appends one attribute to that node and changes nothing else |
| AddressFragment.GroupKeyNotAddress | lib/Fragment/AddressFragmentAbstract.php:22 | no key of the store is both a group key and an address key |
| AddressFragment.AddressKeysSeparate | lib/Fragment/AddressFragmentAbstract.php:28-92 | each address setter writes its own key, a scalar key distinct from the group keys |
| AddressFragment.NameKeyOrder | lib/Fragment/AddressFragmentAbstract.php:98-162 | the name sub-keys compile in the order first, last, middle, prefix, suffix |
| AddressFragment.TelephoneTypeSticky | lib/Fragment/AddressFragmentAbstract.php:169-195 | a non-empty type set before setTelephone survives it |
| AddressFragment.NameNodesSpec | lib/Fragment/AddressFragmentAbstract.php:201-214 | compileName appends the name node first, then one child per stored pair, with strictly ascending names |
| AddressFragment.NameNodesContent | lib/Fragment/AddressFragmentAbstract.php:210-211 | a pair is stored exactly when a name child carries it, with its value unescaped |
| AddressFragment.NameOrderExample | lib/Fragment/AddressFragmentAbstract.php:206-211 | names set as prefix, last, first compile as first, last, prefix |
| BillingFragment.AmountValueRoundTrip | lib/Fragment/Billing.php:39 | the stored value is integer text that reads back as the minor-unit amount given |
| BillingFragment.CurrencySticky | lib/Fragment/Billing.php:36-53 | a non-empty currency set with setCurrency before setAmount survives it |
| BillingFragment.PadMonth | lib/Fragment/Billing.php:123 | the padded month is digits that read back as the month; below 10 it is exactly "0" and the single digit (two characters); from 10 on it is the plain decimal text |
| BillingFragment.WidenYear | lib/Fragment/Billing.php:125-126 | a year below 100 becomes exactly 2000 plus the year; a year from 100 on is unchanged; the last two digits are always kept |
| BillingFragment.FirstSlashAfterDigits | lib/Fragment/Billing.php:128 | behind the month's digits the first '/' is the separator the code inserts |
| BillingFragment.ExpiryRoundTrip | lib/Fragment/Billing.php:123-128 | "MM/YYYY" reads back as the month and the widened year |
| BillingFragment.ArrayExpirySpec | lib/Fragment/Billing.php:107-128 | an array date stores month and widened year from "month"/"year" when "month" is set, otherwise from [0]/[1] |
| BillingFragment.TextExpiryUnchanged | lib/Fragment/Billing.php:130-135 | a string that is not numeric is stored as given |
| BillingFragment.ExpiryExamples | lib/Fragment/Billing.php:97-128 | [7, 23] and {month: 7, year: 2023} are both stored as "07/2023" |
| BillingFragment.PaymentNodeSpec | lib/Fragment/Billing.php:178-183 | the payment node comes first and carries the escaped type attribute exactly when type is set |
| BillingFragment.PaymentChildrenSpec | lib/Fragment/Billing.php:185-188 | every stored pair other than type has its escaped child under the payment node; no child is named type; names strictly ascend |
| BillingFragment.PaymentAfterCompileMembers | lib/Fragment/Billing.php:178-185 | after ksort and unset the payment group holds exactly the stored pairs whose key is not type |
| BillingFragment.PaymentChildrenCount | lib/Fragment/Billing.php:185-188 | there is one payment child per stored pair other than type: the node list has 1 + |g| entries, less one when type is set |
| BillingFragment.PaymentChildrenFromStore | lib/Fragment/Billing.php:187-188 | every payment child carries a stored sub-key other than type, with that key's value escaped, and no attributes |
| BillingFragment.PaymentRecompile | lib/Fragment/Billing.php:178-188 | after compiling, the stored group has no type; compiling it again gives the same children and no type attribute; the store's change is idempotent; a type-only group is emptied |
| BillingFragment.RemoveNothing | lib/Fragment/Billing.php:185 | unsetting a key that is not set changes nothing |
| Fragment.StoreWellFormed | lib/Fragment/AddressFragmentAbstract.php:22 | storing an entry of the right shape keeps the store well formed |
| Fragment.SetScalarWellFormed | lib/Fragment/AddressFragmentAbstract.php:28-92 | the address setters keep the store well formed |
| Fragment.StoredGroupDistinct | lib/Fragment/AddressFragmentAbstract.php:22 | a stored group has distinct sub-keys |
| Fragment.SetSubEntryOk | lib/Fragment/AddressFragmentAbstract.php:98-195 | the group a sub-key setter stores has distinct keys, and keeps its telephone type or currency code |
| Fragment.SetSubWellFormed | lib/Fragment/AddressFragmentAbstract.php:98-195 | the sub-key setters keep the store well formed |
| Fragment.SetWithDefaultEntryOk | lib/Fragment/Billing.php:31-42 | the group setTelephone or setAmount stores is the old group with the default applied and the value written, and it is in shape, including its type or currency code |
| Fragment.SetWithDefaultWellFormed | lib/Fragment/AddressFragmentAbstract.php:169-180 | setTelephone and setAmount keep the store well formed |
| Fragment.SortGroupWellFormed | lib/Fragment/AddressFragmentAbstract.php:206 | ksort of a stored group keeps the store well formed |
| Fragment.PaymentCompileWellFormed | lib/Fragment/Billing.php:178-185 | the ksort and the unset of type that compilePayment applies to the store keep it well formed |
| Fragment.AppendChildren | lib/Fragment/AddressFragmentAbstract.php:210-211 | the loop appends exactly the children of the group, in its order |
| Fragment.AppendNameNodes | lib/Fragment/AddressFragmentAbstract.php:206-211 | appends the name node and its sorted children, as NameNodes |
| Fragment.AppendPaymentNode | lib/Fragment/Billing.php:180-183 | appends the payment node with its type attribute and returns its index |
| Fragment.AppendPaymentNodes | lib/Fragment/Billing.php:178-188 | appends the payment node and its children, as PaymentNodes |
| Fragment.Billing.constructor | lib/Fragment/Billing.php:23 | a new fragment has an empty, well-formed store |
| Fragment.Billing.SetEmail | lib/Fragment/AddressFragmentAbstract.php:28-32 | writes the email scalar only, keeps the store well formed, returns the object |
| Fragment.Billing.SetPremise | lib/Fragment/AddressFragmentAbstract.php:38-42 | writes the premise scalar only, keeps the store well formed, returns the object |
| Fragment.Billing.SetStreet | lib/Fragment/AddressFragmentAbstract.php:48-52 | writes the street scalar only, keeps the store well formed, returns the object |
| Fragment.Billing.SetTown | lib/Fragment/AddressFragmentAbstract.php:58-62 | writes the town scalar only, keeps the store well formed, returns the object |
| Fragment.Billing.SetCounty | lib/Fragment/AddressFragmentAbstract.php:68-72 | writes the county scalar only, keeps the store well formed, returns the object |
| Fragment.Billing.SetPostcode | lib/Fragment/AddressFragmentAbstract.php:78-82 | writes the postcode scalar only, keeps the store well formed, returns the object |
| Fragment.Billing.SetCountry | lib/Fragment/AddressFragmentAbstract.php:88-92 | writes the country scalar only, keeps the store well formed, returns the object |
| Fragment.Billing.SetNamePrefix | lib/Fragment/AddressFragmentAbstract.php:98-106 | writes name.prefix as SetSub does, keeps the store well formed, returns the object |
| Fragment.Billing.SetFirstName | lib/Fragment/AddressFragmentAbstract.php:112-120 | writes name.first as SetSub does, keeps the store well formed, returns the object |
| Fragment.Billing.SetMiddleName | lib/Fragment/AddressFragmentAbstract.php:126-134 | writes name.middle as SetSub does, keeps the store well formed, returns the object |
| Fragment.Billing.SetLastName | lib/Fragment/AddressFragmentAbstract.php:140-148 | writes name.last as SetSub does, keeps the store well formed, returns the object |
| Fragment.Billing.SetNameSuffix | lib/Fragment/AddressFragmentAbstract.php:154-162 | writes name.suffix as SetSub does, keeps the store well formed, returns the object |
| Fragment.Billing.SetTelephone | lib/Fragment/AddressFragmentAbstract.php:169-180 | updates the store as SetWithDefault with type "H" and the number, keeps it well formed, returns the object |
| Fragment.Billing.SetTelephoneType | lib/Fragment/AddressFragmentAbstract.php:187-195 | writes telephone.type as given, keeps the store well formed, returns the object |
| Fragment.Billing.SetAmount | lib/Fragment/Billing.php:31-42 | updates the store as SetWithDefault with currency code "GBP" and the integer text of the minor-unit amount, keeps it well formed, returns the object |
| Fragment.Billing.SetCurrency | lib/Fragment/Billing.php:48-56 | writes amount.currencycode, keeps the store well formed, returns the object |
| Fragment.Billing.SetPaymentType | lib/Fragment/Billing.php:63-71 | writes payment.type upper-cased, keeps the store well formed, returns the object |
| Fragment.Billing.SetPaymentCardNumber | lib/Fragment/Billing.php:77-91 | writes payment.pan with spaces and hyphens removed, keeps the store well formed, returns the object |
| Fragment.Billing.SetPaymentExpiryDate | lib/Fragment/Billing.php:102-138 | writes payment.expirydate as ExpiryText normalises it, keeps the store well formed, returns the object |
| Fragment.Billing.SetPaymentSecurityCode | lib/Fragment/Billing.php:144-152 | writes payment.securitycode, keeps the store well formed, returns the object |
| Fragment.Billing.CompileName | lib/Fragment/AddressFragmentAbstract.php:201-214 | returns false and changes nothing when the name group is absent or empty; otherwise ksorts the stored group and appends exactly NameNodes |
| Fragment.Billing.CompileTelephone | lib/Fragment/AddressFragmentAbstract.php:220-229 | returns false and appends nothing without a telephone group; otherwise appends one telephone node with the escaped number and escaped type attribute |
| Fragment.Billing.CompileAmount | lib/Fragment/Billing.php:158-167 | returns false and appends nothing without an amount group; otherwise appends one amount node with the escaped value and escaped currencycode attribute |
| Fragment.Billing.CompilePayment | lib/Fragment/Billing.php:173-191 | returns false and changes nothing when the payment group is absent or empty; otherwise leaves the group sorted without type and appends exactly PaymentNodes |
| Fragment.TelephoneDefaultExample | lib/Fragment/AddressFragmentAbstract.php:169-229 | on a fresh fragment, setTelephone then compileTelephone give the root and one telephone node with type "H" |
| Fragment.TelephoneTypeKeptExample | lib/Fragment/AddressFragmentAbstract.php:169-195 | setTelephoneType("M") then setTelephone keeps type "M" and stores the number |
| FieldStore.Lookup | lib/Fragment/AddressFragmentAbstract.php:174 | reading `$group[$key]`: the first pair with that key, or unset; LookupMember and LookupAbsent state what it answers |
| FieldStore.IsEmptyValue | lib/Fragment/AddressFragmentAbstract.php:174 | PHP empty() on a stored string: unset, "" or "0"; PutIfEmpty and SetDefault state how it decides the default |
| FieldStore.IsEmptyGroup | lib/Fragment/AddressFragmentAbstract.php:203 | PHP empty() on a top-level group: unset or with no pairs; CompileName and CompilePayment return false exactly then |
| FieldStore.KeyLe | lib/Fragment/AddressFragmentAbstract.php:206 | the key order ksort uses; KeyLeTotal, KeyLeAntisymmetric and KeyLeTransitive state that it is a total order |
| FieldStore.KSort | lib/Fragment/AddressFragmentAbstract.php:206 | ksort as insertion sort on the pairs; KSortSpec states it sorts, permutes and keeps every lookup |
| Text.ToUpper | lib/Fragment/Billing.php:68 | strtoupper; ToUpperShape, ToUpperFixes and ToUpperIdempotent state its effect |
| Decimal.IntString | lib/Fragment/Billing.php:39 | the integer text of the minor-unit amount; IntStringShape and IntStringRoundTrip state its form and that it reads back |
| AddressFragment.SetTelephone | lib/Fragment/AddressFragmentAbstract.php:169-180 | setTelephone on the store: SetWithDefault with type "H" and the number; TelephoneTypeSticky states the sticky type |
| AddressFragment.NameNodes | lib/Fragment/AddressFragmentAbstract.php:206-211 | the nodes compileName appends; NameNodesSpec and NameNodesContent state their order and content |
| BillingFragment.SetAmount | lib/Fragment/Billing.php:31-42 | setAmount on the store: SetWithDefault with currency code "GBP" and the integer text; AmountValueRoundTrip and CurrencySticky state its effect |
| BillingFragment.MonthSlashYear | lib/Fragment/Billing.php:123-128 | the padded month, "/" and the widened year; ExpiryRoundTrip states that it reads back |
| BillingFragment.IsNumeric | lib/Fragment/Billing.php:130 | is_numeric on a string, for plain decimal forms |
| BillingFragment.ExpiryText | lib/Fragment/Billing.php:107-135 | the text setPaymentExpiryDate stores; ArrayExpirySpec, TextExpiryUnchanged and ExpiryExamples state it per input shape |
| BillingFragment.PaymentNodes | lib/Fragment/Billing.php:178-188 | the nodes compilePayment appends; PaymentNodeSpec, PaymentChildrenSpec, PaymentChildrenCount and PaymentChildrenFromStore state them |
| BillingFragment.PaymentAfterCompile | lib/Fragment/Billing.php:178-185 | the payment group compilePayment leaves behind; PaymentAfterCompileMembers and PaymentRecompile state it |

## Left out

- Fragment.Billing.SetAmount: takes the amount already in minor units. The conversion `sprintf("%.0f", $amount * 100)` uses floating point and is not modelled. This includes its rounding and the text "-0" it gives for small negative amounts.
- `escape` is a parameter of the fragment. Its definition lives in the fragment base class, which is not part of this model.
- `date("m/Y", …)` depends on the clock's time zone and is the parameter `monthYear`. An integer timestamp is passed to it as its decimal text.
- BillingFragment.IsNumeric: covers only an optional sign and digits with at most one '.'. PHP's is_numeric also accepts surrounding whitespace and exponents.
- BillingFragment.ExpiryText: array entries are natural numbers. A missing entry reads as PHP null, modelled as 0: it pads to "00" and widens to 2000, as null does. Strings inside the array, negative numbers and floats are not modelled.
- FieldStore.KeyLe: is byte-wise string order. PHP's ksort compares numeric-string keys as numbers, but the fragment only ever uses fixed non-numeric sub-keys.
- Values of the store are strings. PHP accepts any value, and a non-string one only matters through PHP's loose conversions.
- Fragment.Billing.CompileTelephone and Fragment.Billing.CompileAmount: a number or value that was never set is rendered as the empty string, the text of PHP null. The warning PHP raises for it is not modelled.
- The top-level compile order and the XML serialisation are not part of this model. Both live in the fragment base class and the request classes. The document keeps only nodes, texts and attributes.
