/**
 * The currency cleaner applied to the price columns when the sales table is
 * loaded: `re.sub(r'[^\d.]', '', x)` removes every character that is neither
 * a digit nor a dot. Digits are the ASCII digits `0`-`9` here.
 */
module Currency {
  import opened Sequences

  /** The characters the cleaner keeps. */
  predicate IsCurrencyChar(c: char) {
    '0' <= c <= '9' || c == '.'
  }

  /** `s` holds only digits and dots. */
  predicate IsClean(s: string) {
    forall i :: 0 <= i < |s| ==> IsCurrencyChar(s[i])
  }

  /**
   * The cleaned text: only digits and dots remain, and each of them occurs as
   * often as in the input.
   */
  function StripCurrency(s: string): (r: string)
    ensures IsClean(r)
    ensures forall c :: IsCurrencyChar(c) ==> multiset(r)[c] == multiset(s)[c]
    ensures |r| <= |s|
  {
    if s == [] then []
    else
      assert s == [s[0]] + s[1..];
      (if IsCurrencyChar(s[0]) then [s[0]] else []) + StripCurrency(s[1..])
  }

  /** The kept characters stay in their original order. */
  lemma {:induction false} StripIsSubsequence(s: string)
    ensures IsSubsequence(StripCurrency(s), s)
  {
    if s != [] {
      StripIsSubsequence(s[1..]);
      var r, rest := StripCurrency(s), StripCurrency(s[1..]);
      if IsCurrencyChar(s[0]) {
        assert r == [s[0]] + rest;
        assert r[0] == s[0] && r[1..] == rest;
      } else {
        assert r == rest;
      }
    }
  }

  /** Text that is already clean passes through unchanged. */
  lemma {:induction false} StripCleanIsIdentity(s: string)
    requires IsClean(s)
    ensures StripCurrency(s) == s
  {
    if s != [] {
      StripCleanIsIdentity(s[1..]);
      assert s == [s[0]] + s[1..];
    }
  }

  /** Cleaning twice is the same as cleaning once. */
  lemma {:induction false} StripIdempotent(s: string)
    ensures StripCurrency(StripCurrency(s)) == StripCurrency(s)
  {
    StripCleanIsIdentity(StripCurrency(s));
  }

  /** Cleaning works character by character: it distributes over concatenation. */
  lemma {:induction false} StripConcat(a: string, b: string)
    ensures StripCurrency(a + b) == StripCurrency(a) + StripCurrency(b)
  {
    if a == [] {
      assert a + b == b;
    } else {
      var ab := a + b;
      assert ab[0] == a[0] && ab[1..] == a[1..] + b;
      StripConcat(a[1..], b);
      var head := if IsCurrencyChar(a[0]) then [a[0]] else [];
      calc {
        StripCurrency(ab);
        head + StripCurrency(a[1..] + b);
        head + (StripCurrency(a[1..]) + StripCurrency(b));
        (head + StripCurrency(a[1..])) + StripCurrency(b);
      }
    }
  }
}
