/**
 * The few pieces of Python's string handling the marker file relies on:
 * `str.split` on one separator character, `str.join`, `str(int)` and `int(str)`.
 */
module Text {
  import opened Wrappers
  import opened Seqs

  /** Python's `s.split(sep)`: the pieces between separators, always at least one. */
  function Split(s: string, sep: char): (r: seq<string>)
    ensures |r| >= 1
  {
    if s == [] then [""]
    else
      var rest := Split(s[1..], sep);
      if s[0] == sep then [""] + rest
      else [[s[0]] + rest[0]] + rest[1..]
  }

  /** Python's `sep.join(xs)`. */
  function Join(xs: seq<string>, sep: char): string
  {
    if xs == [] then ""
    else if |xs| == 1 then xs[0]
    else xs[0] + [sep] + Join(xs[1..], sep)
  }

  /** Each piece followed by the separator, as a loop of `res += piece + sep` builds it. */
  function Terminated(xs: seq<string>, sep: char): string
  {
    if xs == [] then "" else xs[0] + [sep] + Terminated(xs[1..], sep)
  }

  /** Splitting at one separator splits the two sides independently. */
  lemma {:induction false} SplitAppend(s: string, t: string, sep: char)
    ensures Split(s + [sep] + t, sep) == Split(s, sep) + Split(t, sep)
  {
    if s == [] {
      assert s + [sep] + t == [sep] + t;
      assert ([sep] + t)[1..] == t;
    } else {
      assert (s + [sep] + t)[0] == s[0];
      assert (s + [sep] + t)[1..] == s[1..] + [sep] + t;
      SplitAppend(s[1..], t, sep);
    }
  }

  /** A string without the separator splits into itself. */
  lemma {:induction false} SplitNoSeparator(s: string, sep: char)
    requires sep !in s
    ensures Split(s, sep) == [s]
  {
    if s != [] {
      assert sep !in s[1..];
      SplitNoSeparator(s[1..], sep);
      assert [s[0]] + s[1..] == s;
    }
  }

  /** `split` undoes `join` when no piece holds the separator. */
  lemma {:induction false} SplitJoin(xs: seq<string>, sep: char)
    requires |xs| >= 1
    requires forall k :: 0 <= k < |xs| ==> sep !in xs[k]
    ensures Split(Join(xs, sep), sep) == xs
  {
    if |xs| == 1 {
      SplitNoSeparator(xs[0], sep);
    } else {
      SplitJoin(xs[1..], sep);
      SplitAppend(xs[0], Join(xs[1..], sep), sep);
      SplitNoSeparator(xs[0], sep);
      assert [xs[0]] + xs[1..] == xs;
    }
  }

  /** Splitting recovers separator-terminated pieces, followed by the pieces of the rest. */
  lemma {:induction false} SplitTerminated(xs: seq<string>, rest: string, sep: char)
    requires forall k :: 0 <= k < |xs| ==> sep !in xs[k]
    ensures Split(Terminated(xs, sep) + rest, sep) == xs + Split(rest, sep)
  {
    if xs == [] {
      assert Terminated(xs, sep) + rest == rest;
    } else {
      var head, tail := xs[0], Terminated(xs[1..], sep) + rest;
      var split := Split(rest, sep);
      assert Terminated(xs, sep) + rest == head + [sep] + tail;
      SplitAppend(head, tail, sep);
      SplitNoSeparator(head, sep);
      SplitTerminated(xs[1..], rest, sep);
      calc {
        Split(Terminated(xs, sep) + rest, sep);
        Split(head, sep) + Split(tail, sep);
        [head] + (xs[1..] + split);
        { AppendAssoc([head], xs[1..], split); }
        ([head] + xs[1..]) + split;
        { assert [head] + xs[1..] == xs; }
        xs + split;
      }
    }
  }

  predicate IsDigit(c: char) { '0' <= c <= '9' }

  predicate AllDigits(s: string) { forall k :: 0 <= k < |s| ==> IsDigit(s[k]) }

  function DigitChar(d: nat): (c: char)
    requires d < 10
    ensures IsDigit(c) && c as int - '0' as int == d
  {
    ('0' as int + d) as char
  }

  /** Python's `str(n)` for a natural number: decimal digits, no leading zeros. */
  function ShowNat(n: nat): (s: string)
    ensures |s| >= 1 && AllDigits(s)
  {
    if n < 10 then [DigitChar(n)] else ShowNat(n / 10) + [DigitChar(n % 10)]
  }

  /** Python's `str(n)` for an integer. */
  function ShowInt(n: int): string
  {
    if n < 0 then "-" + ShowNat(-n) else ShowNat(n)
  }

  function DigitsValue(s: string): nat
    requires AllDigits(s)
  {
    if s == [] then 0
    else DigitsValue(s[..|s| - 1]) * 10 + (s[|s| - 1] as int - '0' as int)
  }

  /** Python's `int(s)` on an optionally signed run of decimal digits; `None` where it raises. */
  function ParseInt(s: string): Option<int>
  {
    if |s| > 0 && (s[0] == '-' || s[0] == '+') then
      var digits := s[1..];
      if |digits| > 0 && AllDigits(digits) then
        var v: int := DigitsValue(digits);
        Some(if s[0] == '-' then -v else v)
      else None
    else if |s| > 0 && AllDigits(s) then Some(DigitsValue(s))
    else None
  }

  lemma {:induction false} DigitsValueShowNat(n: nat)
    ensures DigitsValue(ShowNat(n)) == n
  {
    if n >= 10 {
      var s := ShowNat(n);
      assert s[..|s| - 1] == ShowNat(n / 10);
      DigitsValueShowNat(n / 10);
    }
  }

  /** `int(str(n)) == n`. */
  lemma {:induction false} ParseShowInt(n: int)
    ensures ParseInt(ShowInt(n)) == Some(n)
  {
    var s := ShowInt(n);
    if n < 0 {
      var d := ShowNat(-n);
      assert s == "-" + d && s[1..] == d;
      DigitsValueShowNat(-n);
    } else {
      var d := ShowNat(n);
      assert s == d && IsDigit(s[0]);
      DigitsValueShowNat(n);
    }
  }

  /** The decimal text of an integer holds no tab, underscore or newline. */
  lemma ShowIntPlain(n: int)
    ensures '\t' !in ShowInt(n) && '_' !in ShowInt(n) && '\n' !in ShowInt(n)
  {
    var s := ShowInt(n);
    var d := ShowNat(if n < 0 then -n else n);
    assert forall k :: 0 <= k < |d| ==> IsDigit(d[k]);
    if n < 0 {
      assert s == "-" + d;
    }
  }
}
