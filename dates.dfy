/**
 * Splitting the order date `Data_Pedido` into its `-`-separated fields, as
 * `str.split('-')` does, and the month key the month filter and its dropdown
 * use: the second field.
 */
module Dates {
  import opened Wrappers

  /** Python's `text.split(sep)`: every occurrence of `sep` separates two fields. */
  function Split(s: string, sep: char): (fields: seq<string>)
    ensures |fields| >= 1
    ensures |fields| == 1 <==> sep !in s
    ensures forall i :: 0 <= i < |fields| ==> sep !in fields[i]
  {
    if s == [] then [[]]
    else
      var rest := Split(s[1..], sep);
      assert s == [s[0]] + s[1..];
      if s[0] == sep then [[]] + rest
      else [[s[0]] + rest[0]] + rest[1..]
  }

  /** Python's `sep.join(fields)`. */
  function Join(fields: seq<string>, sep: char): string
    requires |fields| >= 1
  {
    if |fields| == 1 then fields[0]
    else fields[0] + [sep] + Join(fields[1..], sep)
  }

  /** Joining the fields of a split gives back the original text. */
  lemma {:induction false} JoinSplit(s: string, sep: char)
    ensures Join(Split(s, sep), sep) == s
  {
    if s != [] {
      var rest := Split(s[1..], sep);
      JoinSplit(s[1..], sep);
      var fields := Split(s, sep);
      assert s == [s[0]] + s[1..];
      if s[0] == sep {
        assert fields == [[]] + rest;
        assert fields[1..] == rest;
        assert Join(fields, sep) == [] + [sep] + Join(rest, sep);
      } else if |rest| == 1 {
        assert fields == [[s[0]] + rest[0]];
        assert Join(rest, sep) == rest[0];
      } else {
        assert fields == [[s[0]] + rest[0]] + rest[1..];
        assert fields[1..] == rest[1..];
        assert Join(fields, sep) == [s[0]] + rest[0] + [sep] + Join(rest[1..], sep);
        assert Join(rest, sep) == rest[0] + [sep] + Join(rest[1..], sep);
      }
    }
  }

  /** A field free of `sep` followed by `sep` splits off as one whole field. */
  lemma {:induction false} SplitLeadingField(a: string, sep: char, b: string)
    requires sep !in a
    ensures Split(a + [sep] + b, sep) == [a] + Split(b, sep)
  {
    var s := a + [sep] + b;
    if a == [] {
      assert s == [sep] + b && s[1..] == b;
    } else {
      assert s[0] == a[0] && s[1..] == a[1..] + [sep] + b;
      SplitLeadingField(a[1..], sep, b);
      assert [a[0]] + a[1..] == a;
    }
  }

  /** Text without `sep` is a single field. */
  lemma {:induction false} SplitSingleField(a: string, sep: char)
    requires sep !in a
    ensures Split(a, sep) == [a]
  {
    if a != [] {
      SplitSingleField(a[1..], sep);
      assert [a[0]] + a[1..] == a;
    }
  }

  /** Splitting the join of `sep`-free fields gives back those fields. */
  lemma {:induction false} SplitJoin(fields: seq<string>, sep: char)
    requires |fields| >= 1
    requires forall i :: 0 <= i < |fields| ==> sep !in fields[i]
    ensures Split(Join(fields, sep), sep) == fields
  {
    if |fields| == 1 {
      SplitSingleField(fields[0], sep);
    } else {
      SplitJoin(fields[1..], sep);
      SplitLeadingField(fields[0], sep, Join(fields[1..], sep));
      assert [fields[0]] + fields[1..] == fields;
    }
  }

  /**
   * The month key of an order date: the second `-`-separated field, as
   * `str.split('-', expand=True)[1]` reads it. A date without `-` has no
   * second field; pandas fills that cell with a missing value, modelled as `None`.
   */
  function MonthKey(date: string): (m: Option<string>)
    ensures m.Some? <==> '-' in date
    ensures m.Some? ==> '-' !in m.value
  {
    var fields := Split(date, '-');
    if |fields| >= 2 then Some(fields[1]) else None
  }

  /**
   * For a date written as `<year>-<month>` followed by nothing or by
   * `-<rest>` (the day), the key is the month field.
   */
  lemma {:induction false} MonthKeyOfDate(year: string, month: string, tail: string)
    requires '-' !in year && '-' !in month
    requires tail == [] || tail[0] == '-'
    ensures MonthKey(year + "-" + month + tail) == Some(month)
  {
    var d := year + "-" + month + tail;
    assert d == year + ['-'] + (month + tail);
    SplitLeadingField(year, '-', month + tail);
    if tail == [] {
      assert month + tail == month;
      SplitSingleField(month, '-');
    } else {
      assert month + tail == month + ['-'] + tail[1..];
      SplitLeadingField(month, '-', tail[1..]);
    }
  }
}
