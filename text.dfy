/**
 * The two character-level normalisations the billing setters apply on the way
 * in: PHP's strtoupper (ASCII letters only) and the removal of the separators
 * people type inside a card number.
 */
module Text {

  predicate IsLower(c: char) {
    'a' <= c <= 'z'
  }

  function UpperChar(c: char): (u: char)
    ensures !IsLower(u)
    ensures !IsLower(c) ==> u == c
    ensures IsLower(c) ==> 'A' <= u <= 'Z' && u as int - 'A' as int == c as int - 'a' as int
  {
    if IsLower(c) then ((c as int) - 32) as char else c
  }

  predicate NoLower(s: string) {
    forall i :: 0 <= i < |s| ==> !IsLower(s[i])
  }

  /** strtoupper: every ASCII lower-case letter becomes its capital; nothing else moves. */
  function ToUpper(s: string): (r: string)
    decreases |s|
  {
    if s == [] then [] else [UpperChar(s[0])] + ToUpper(s[1..])
  }

  lemma {:induction false} ToUpperShape(s: string)
    ensures |ToUpper(s)| == |s|
    ensures forall i :: 0 <= i < |s| ==> ToUpper(s)[i] == UpperChar(s[i])
    ensures NoLower(ToUpper(s))
    decreases |s|
  {
    if s != [] {
      ToUpperShape(s[1..]);
      var r := ToUpper(s);
      assert r == [UpperChar(s[0])] + ToUpper(s[1..]);
      forall i | 0 < i < |s| ensures r[i] == UpperChar(s[i]) {
        assert r[i] == ToUpper(s[1..])[i - 1];
      }
    }
  }

  /** A string with no lower-case letter is left as it is. */
  lemma {:induction false} ToUpperFixes(s: string)
    requires NoLower(s)
    ensures ToUpper(s) == s
    decreases |s|
  {
    if s != [] {
      assert NoLower(s[1..]) by {
        forall i | 0 <= i < |s| - 1 ensures !IsLower(s[1..][i]) { assert s[1..][i] == s[i + 1]; }
      }
      ToUpperFixes(s[1..]);
      assert !IsLower(s[0]);
      assert s == [s[0]] + s[1..];
    }
  }

  /** strtoupper applied twice is strtoupper applied once. */
  lemma ToUpperIdempotent(s: string)
    ensures ToUpper(ToUpper(s)) == ToUpper(s)
  {
    ToUpperShape(s);
    ToUpperFixes(ToUpper(s));
  }

  predicate IsSeparator(c: char) {
    c == ' ' || c == '-'
  }

  predicate NoSeparator(s: string) {
    forall i :: 0 <= i < |s| ==> !IsSeparator(s[i])
  }

  /** str_replace([" ", "-"], "", s): drops every space and hyphen. */
  function StripSeparators(s: string): (r: string)
    ensures NoSeparator(r)
    ensures |r| <= |s|
    decreases |s|
  {
    if s == [] then []
    else if IsSeparator(s[0]) then StripSeparators(s[1..])
    else [s[0]] + StripSeparators(s[1..])
  }

  /**
   * Stripping distributes over concatenation: what survives of `a` comes, in
   * its own order, before what survives of `b`.
   */
  lemma {:induction false} StripAppend(a: string, b: string)
    ensures StripSeparators(a + b) == StripSeparators(a) + StripSeparators(b)
    decreases |a|
  {
    if a == [] {
      assert a + b == b;
    } else {
      assert (a + b)[0] == a[0];
      assert (a + b)[1..] == a[1..] + b;
      StripAppend(a[1..], b);
    }
  }

  /** A string with no separator is already stripped. */
  lemma {:induction false} StripFixes(s: string)
    requires NoSeparator(s)
    ensures StripSeparators(s) == s
    decreases |s|
  {
    if s != [] {
      assert NoSeparator(s[1..]) by {
        forall i | 0 <= i < |s| - 1 ensures !IsSeparator(s[1..][i]) { assert s[1..][i] == s[i + 1]; }
      }
      StripFixes(s[1..]);
      assert s == [s[0]] + s[1..];
    }
  }

  lemma StripIdempotent(s: string)
    ensures StripSeparators(StripSeparators(s)) == StripSeparators(s)
  {
    StripFixes(StripSeparators(s));
  }

  /**
   * Every character other than a separator is kept as often as it occurs, and
   * no separator is kept.
   */
  lemma {:induction false} StripCounts(s: string, c: char)
    ensures multiset(StripSeparators(s))[c] == if IsSeparator(c) then 0 else multiset(s)[c]
    decreases |s|
  {
    if s != [] {
      StripCounts(s[1..], c);
      assert s == [s[0]] + s[1..];
      assert multiset(s) == multiset([s[0]]) + multiset(s[1..]);
    }
  }
}
