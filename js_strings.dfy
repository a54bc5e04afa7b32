/** The string operations of JavaScript that `getFormattedId` and the query-string code use:
    `split` on a one-character separator, `toLowerCase`, and `Number` of a string. */
module JsStrings {
  import opened JsValues

  /** How often `c` occurs in `s`. */
  function Occurrences(s: string, c: char): nat {
    if s == [] then 0 else (if s[0] == c then 1 else 0) + Occurrences(s[1..], c)
  }

  /** `s.split(sep)`: the pieces between the occurrences of `sep`; `"".split(sep)` is `[""]`. */
  function Split(s: string, sep: char): (parts: seq<string>)
    ensures |parts| == Occurrences(s, sep) + 1
    ensures forall i :: 0 <= i < |parts| ==> sep !in parts[i]
  {
    if s == [] then [""]
    else
      var rest := Split(s[1..], sep);
      if s[0] == sep then [""] + rest
      else [[s[0]] + rest[0]] + rest[1..]
  }

  /** `parts.join(sep)`, the reference that `Split` inverts. */
  function Join(parts: seq<string>, sep: char): string
    requires parts != []
  {
    if |parts| == 1 then parts[0] else parts[0] + [sep] + Join(parts[1..], sep)
  }

  /** Joining the pieces again gives back the string. */
  lemma {:induction false} JoinSplit(s: string, sep: char)
    ensures Join(Split(s, sep), sep) == s
  {
    if s != [] {
      var rest := Split(s[1..], sep);
      JoinSplit(s[1..], sep);
      if s[0] == sep {
        assert Split(s, sep) == [""] + rest;
        assert ([""] + rest)[1..] == rest;
      } else {
        var parts := Split(s, sep);
        assert parts[0] == [s[0]] + rest[0];
        if |rest| == 1 {
          assert parts == [[s[0]] + rest[0]];
        } else {
          assert parts[1..] == rest[1..];
          assert Join(rest, sep) == rest[0] + [sep] + Join(rest[1..], sep);
        }
        assert s == [s[0]] + s[1..];
      }
    }
  }

  /** Where the first character of `a + [sep] + b` comes from, and what follows it. */
  lemma JoinedHead(a: string, sep: char, b: string)
    ensures a == [] ==> (a + [sep] + b)[0] == sep && (a + [sep] + b)[1..] == b
    ensures a != [] ==> (a + [sep] + b)[0] == a[0] && (a + [sep] + b)[1..] == a[1..] + [sep] + b
  {
  }

  /** The first piece of a concatenation of piece lists, and the pieces after it. */
  lemma PiecesHead(rest: seq<string>, more: seq<string>)
    requires rest != []
    ensures (rest + more)[0] == rest[0] && (rest + more)[1..] == rest[1..] + more
  {
  }

  lemma PiecesAssociative(x: seq<string>, y: seq<string>, z: seq<string>)
    ensures x + (y + z) == (x + y) + z
  {
  }

  /** The step of `SplitAppend`: from the rest of `a` to `a`. */
  lemma SplitAppendStep(a: string, b: string, sep: char)
    requires a != []
    requires Split(a[1..] + [sep] + b, sep) == Split(a[1..], sep) + Split(b, sep)
    ensures Split(a + [sep] + b, sep) == Split(a, sep) + Split(b, sep)
  {
    var r, pb := Split(a[1..], sep), Split(b, sep);
    JoinedHead(a, sep, b);
    if a[0] == sep {
      assert Split(a + [sep] + b, sep) == [""] + (r + pb);
      assert Split(a, sep) == [""] + r;
      PiecesAssociative([""], r, pb);
    } else {
      PiecesHead(r, pb);
      assert Split(a + [sep] + b, sep) == [[a[0]] + r[0]] + (r[1..] + pb);
      assert Split(a, sep) == [[a[0]] + r[0]] + r[1..];
      PiecesAssociative([[a[0]] + r[0]], r[1..], pb);
    }
  }

  /** A separator splits a string into the pieces of either side. */
  lemma {:induction false} SplitAppend(a: string, b: string, sep: char)
    ensures Split(a + [sep] + b, sep) == Split(a, sep) + Split(b, sep)
  {
    if a == [] {
      JoinedHead(a, sep, b);
    } else {
      SplitAppend(a[1..], b, sep);
      SplitAppendStep(a, b, sep);
    }
  }

  /** A string without the separator is a single piece. */
  lemma {:induction false} SplitWithoutSeparator(s: string, sep: char)
    requires sep !in s
    ensures Split(s, sep) == [s]
  {
    if s != [] {
      SplitWithoutSeparator(s[1..], sep);
      assert s == [s[0]] + s[1..];
    }
  }

  /** `c.toLowerCase()` for ASCII letters; every other character is left as it is. */
  function LowerChar(c: char): char {
    if 'A' <= c <= 'Z' then (c as int - 'A' as int + 'a' as int) as char else c
  }

  /** `s.toLowerCase()`, character by character. */
  function Lower(s: string): (r: string)
    ensures |r| == |s|
    ensures forall i :: 0 <= i < |r| ==> !('A' <= r[i] <= 'Z')
    ensures forall i :: 0 <= i < |s| && !('A' <= s[i] <= 'Z') ==> r[i] == s[i]
    ensures forall i :: 0 <= i < |s| && 'A' <= s[i] <= 'Z' ==> r[i] as int == s[i] as int + 32
  {
    seq(|s|, i requires 0 <= i < |s| => LowerChar(s[i]))
  }

  /** Lower-casing twice is lower-casing once. */
  lemma LowerIdempotent(s: string)
    ensures Lower(Lower(s)) == Lower(s)
  {
    var l := Lower(s);
    assert forall i :: 0 <= i < |l| ==> Lower(l)[i] == l[i];
  }

  predicate IsDigit(c: char) {
    '0' <= c <= '9'
  }

  predicate AllDigits(s: string) {
    forall i :: 0 <= i < |s| ==> IsDigit(s[i])
  }

  /** The value of a string of decimal digits. */
  function DecimalValue(s: string): nat
    requires AllDigits(s)
  {
    if s == [] then 0 else DecimalValue(s[..|s| - 1]) * 10 + (s[|s| - 1] as int - '0' as int)
  }

  function DigitChar(d: nat): char
    requires d < 10
  {
    ('0' as int + d) as char
  }

  /** `String(n)` for a natural number: its decimal digits without leading zeros. */
  function DecimalString(n: nat): (s: string)
    ensures |s| >= 1 && AllDigits(s)
    ensures s[0] == '0' ==> n == 0
  {
    if n < 10 then [DigitChar(n)] else DecimalString(n / 10) + [DigitChar(n % 10)]
  }

  /** Reading the digits of `n` back gives `n`. */
  lemma {:induction false} DecimalRoundTrip(n: nat)
    ensures DecimalValue(DecimalString(n)) == n
  {
    if n >= 10 {
      DecimalRoundTrip(n / 10);
      var s := DecimalString(n);
      assert s[..|s| - 1] == DecimalString(n / 10);
    }
  }

  /** `Number(s)` for a string: the empty string is 0 and plain decimal digits give their
      value; every other string, whether JavaScript reads it as another number or as NaN, is
      kept unevaluated as `NotDecimal`. */
  function StringToNumber(s: string): (r: JsNumber)
    ensures r != UndefinedNaN
    ensures r.Finite? <==> AllDigits(s)
    ensures r.Finite? ==> r.value == DecimalValue(s)
    ensures !r.Finite? ==> r == NotDecimal(s)
    ensures s == [] ==> r == Finite(0)
  {
    if AllDigits(s) then Finite(DecimalValue(s)) else NotDecimal(s)
  }

  /** `Number(x)` for a string that may be `undefined`; `Number(undefined)` is NaN. */
  function ToNumber(x: Option<string>): (r: JsNumber)
    ensures r == UndefinedNaN <==> x.None?
  {
    match x
    case None => UndefinedNaN
    case Some(s) => StringToNumber(s)
  }
}
