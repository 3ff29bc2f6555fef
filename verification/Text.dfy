/** Text as the source's shell and Python code handle it: decimal numbers, and splitting
    and joining on one separator character. */
module Text {

  datatype Option<+T> = None | Some(value: T)

  predicate IsDigit(c: char) {
    '0' <= c <= '9'
  }

  function Digit(d: nat): (c: char)
    requires d < 10
    ensures IsDigit(c)
  {
    '0' + d as char
  }

  function DigitValue(c: char): (d: nat)
    requires IsDigit(c)
    ensures d < 10 && Digit(d) == c
  {
    (c - '0') as nat
  }

  /** The decimal digits of n without leading zeros. */
  function Decimal(n: nat): (s: string)
    ensures |s| > 0 && forall c :: c in s ==> IsDigit(c)
  {
    if n < 10 then [Digit(n)] else Decimal(n / 10) + [Digit(n % 10)]
  }

  predicate AllDigits(s: string) {
    |s| > 0 && forall c :: c in s ==> IsDigit(c)
  }

  /** The number a digit string denotes; leading zeros are accepted. */
  function Number(s: string): nat
    requires forall c :: c in s ==> IsDigit(c)
  {
    if s == "" then 0 else 10 * Number(s[..|s| - 1]) + DigitValue(s[|s| - 1])
  }

  lemma {:induction false} DecimalRoundTrip(n: nat)
    ensures AllDigits(Decimal(n)) && Number(Decimal(n)) == n
  {
    if n < 10 {
      assert Decimal(n)[..0] == "";
    } else {
      DecimalRoundTrip(n / 10);
      var s := Decimal(n);
      assert s[..|s| - 1] == Decimal(n / 10);
    }
  }

  /** `s.split(sep)`: the stretches between separators, empty ones included. */
  function Split(s: string, sep: char): (parts: seq<string>)
    ensures |parts| >= 1
  {
    if s == "" then [""] else
      var rest := Split(s[1..], sep);
      if s[0] == sep then [""] + rest else [[s[0]] + rest[0]] + rest[1..]
  }

  function Join(parts: seq<string>, sep: char): string
    requires |parts| >= 1
  {
    if |parts| == 1 then parts[0] else parts[0] + [sep] + Join(parts[1..], sep)
  }

  predicate Free(s: string, sep: char) {
    sep !in s
  }

  predicate AllFree(parts: seq<string>, sep: char) {
    forall i :: 0 <= i < |parts| ==> Free(parts[i], sep)
  }

  lemma FreePart(s: string, i: nat, j: nat, sep: char)
    requires Free(s, sep) && i <= j <= |s|
    ensures Free(s[i..j], sep)
  {
    forall k | 0 <= k < j - i
      ensures s[i..j][k] != sep
    {
      assert s[i + k] in s;
    }
  }

  lemma FreeAppend(a: string, b: string, sep: char)
    ensures Free(a + b, sep) <==> Free(a, sep) && Free(b, sep)
  {
    assert forall c :: c in a + b <==> c in a || c in b;
  }

  lemma {:induction false} JoinFree(parts: seq<string>, sep: char, c: char)
    requires |parts| >= 1 && AllFree(parts, c) && sep != c
    ensures Free(Join(parts, sep), c)
  {
    if |parts| > 1 {
      JoinFree(parts[1..], sep, c);
      FreeAppend(parts[0], [sep], c);
      FreeAppend(parts[0] + [sep], Join(parts[1..], sep), c);
    }
  }

  lemma {:induction false} SplitFree(s: string, sep: char)
    ensures AllFree(Split(s, sep), sep)
  {
    if s != "" {
      SplitFree(s[1..], sep);
      assert Free(Split(s[1..], sep)[0], sep);
    }
  }

  lemma {:induction false} JoinSplit(s: string, sep: char)
    ensures Join(Split(s, sep), sep) == s
  {
    if s != "" {
      JoinSplit(s[1..], sep);
      var rest := Split(s[1..], sep);
      if s[0] == sep {
        assert ([""] + rest)[1..] == rest;
      } else {
        assert Split(s, sep)[1..] == rest[1..];
      }
    }
  }

  /** Splitting what was joined: no separator inside a part means nothing is cut twice. */
  lemma {:induction false} SplitJoin(parts: seq<string>, sep: char)
    requires |parts| >= 1 && AllFree(parts, sep)
    ensures Split(Join(parts, sep), sep) == parts
    decreases |parts|
  {
    if |parts| == 1 {
      SplitOne(parts[0], sep);
    } else {
      assert forall i :: 0 <= i < |parts| - 1 ==> parts[1..][i] == parts[i + 1];
      SplitJoin(parts[1..], sep);
      SplitPrefix(parts[0], Join(parts[1..], sep), sep);
    }
  }

  lemma {:induction false} SplitOne(s: string, sep: char)
    requires Free(s, sep)
    ensures Split(s, sep) == [s]
  {
    if s != "" {
      assert s[0] in s;
      SplitOne(s[1..], sep);
      assert [s[0]] + s[1..] == s;
    }
  }

  lemma {:induction false} SplitPrefix(a: string, rest: string, sep: char)
    requires Free(a, sep)
    ensures Split(a + [sep] + rest, sep) == [a] + Split(rest, sep)
  {
    var t := a + [sep] + rest;
    if a == "" {
      assert t[1..] == rest;
    } else {
      assert a[0] in a && t[1..] == a[1..] + [sep] + rest;
      SplitPrefix(a[1..], rest, sep);
      assert [a[0]] + a[1..] == a;
    }
  }

  /** Splitting distributes over the separator, whatever the two sides are. */
  lemma {:induction false} SplitAppend(a: string, b: string, sep: char)
    ensures Split(a + [sep] + b, sep) == Split(a, sep) + Split(b, sep)
  {
    var t := a + [sep] + b;
    if a == "" {
      assert t[1..] == b;
    } else {
      assert t[1..] == a[1..] + [sep] + b;
      SplitAppend(a[1..], b, sep);
    }
  }

  /** What follows the last separator. */
  function LastPart(s: string, sep: char): string {
    var parts := Split(s, sep);
    parts[|parts| - 1]
  }

  function PartsBefore(s: string, sep: char): seq<string> {
    var parts := Split(s, sep);
    parts[..|parts| - 1]
  }

  function LastSeparator(s: string, sep: char): (k: nat)
    requires sep in s
    ensures k < |s| && s[k] == sep && Free(s[k + 1..], sep)
  {
    var n := |s| - 1;
    if s[n] == sep then n
    else
      assert s == s[..n] + [s[n]];
      var k := LastSeparator(s[..n], sep);
      FreeAppend(s[..n][k + 1..], [s[n]], sep);
      assert s[k + 1..] == s[..n][k + 1..] + [s[n]];
      k
  }

  lemma {:induction false} SplitLast(b: string, c: string, sep: char)
    requires Free(c, sep)
    ensures Split(b + [sep] + c, sep) == Split(b, sep) + [c]
  {
    SplitAppend(b, c, sep);
    SplitOne(c, sep);
  }

  /** A text is a comma-free end, after its earlier parts. */
  lemma LastPartIs(s: string, sep: char) returns (before: seq<string>, b: string, c: string)
    ensures Free(c, sep) && Split(s, sep) == before + [c]
    ensures if before == [] then s == c else s == b + [sep] + c && before == Split(b, sep)
  {
    if Free(s, sep) {
      before, b, c := [], "", s;
      SplitOne(s, sep);
    } else {
      var k := LastSeparator(s, sep);
      b, c := s[..k], s[k + 1..];
      before := Split(b, sep);
      assert s == b + [sep] + c;
      SplitLast(b, c, sep);
    }
  }

  lemma LastPartEmpty(s: string, sep: char)
    ensures LastPart(s, sep) == "" <==> s == "" || s[|s| - 1] == sep
  {
    var before, b, c := LastPartIs(s, sep);
    if c != "" {
      assert c[|c| - 1] in c && s[|s| - 1] == c[|c| - 1];
    }
  }

  lemma {:induction false} SplitLonger(b: string, c: string, w: string, sep: char)
    requires Free(c, sep) && Free(w, sep)
    ensures Split(b + [sep] + c + w, sep) == Split(b, sep) + [c + w]
  {
    FreeAppend(c, w, sep);
    SplitLast(b, c + w, sep);
    assert b + [sep] + (c + w) == b + [sep] + c + w;
  }

  /** Text without a separator only lengthens the last part. */
  lemma {:induction false} SplitGlue(a: string, w: string, sep: char)
    requires Free(w, sep)
    ensures Split(a + w, sep) == PartsBefore(a, sep) + [LastPart(a, sep) + w]
  {
    var before, b, c := LastPartIs(a, sep);
    if before == [] {
      FreeAppend(c, w, sep);
      SplitOne(c + w, sep);
    } else {
      SplitLonger(b, c, w, sep);
    }
    Ends(Split(a, sep), before, c);
  }

  lemma Ends(parts: seq<string>, before: seq<string>, last: string)
    requires parts == before + [last]
    ensures parts[..|parts| - 1] == before && parts[|parts| - 1] == last
  {
  }

  /** A text begins with its first part. */
  lemma {:induction false} FirstPart(s: string, sep: char)
    ensures StartsWith(s, Split(s, sep)[0])
  {
    if s != "" && s[0] != sep {
      FirstPart(s[1..], sep);
      var first := Split(s[1..], sep)[0];
      assert s[..1 + |first|] == [s[0]] + s[1..][..|first|];
    }
  }

  /** What a part begins with occurs in the text. */
  lemma {:induction false} PartOccurs(s: string, sep: char, i: nat, word: string)
    requires i < |Split(s, sep)| && StartsWith(Split(s, sep)[i], word)
    ensures Contains(s, word)
    ensures i == 0 ==> StartsWith(s, word)
  {
    if i == 0 {
      FirstPart(s, sep);
      var part := Split(s, sep)[0];
      assert s[..|part|][..|word|] == s[..|word|];
      assert s[0..] == s;
    } else {
      PartOccurs(s[1..], sep, if s[0] == sep then i - 1 else i, word);
      var j :| 0 <= j <= |s[1..]| && StartsWith(s[1..][j..], word);
      assert s[1..][j..] == s[j + 1..];
    }
  }

  predicate StartsWith(s: string, prefix: string) {
    |prefix| <= |s| && s[..|prefix|] == prefix
  }

  predicate EndsWith(s: string, suffix: string) {
    |suffix| <= |s| && s[|s| - |suffix|..] == suffix
  }

  /** True when word occurs somewhere in s. */
  predicate Contains(s: string, word: string) {
    exists i :: 0 <= i <= |s| && StartsWith(s[i..], word)
  }

  /** A prefix without the separator does not reach past it. */
  lemma PrefixBefore(s: string, rest: string, prefix: string, sep: char)
    requires Free(prefix, sep) && (rest == "" || rest[0] == sep)
    ensures StartsWith(s + rest, prefix) <==> StartsWith(s, prefix)
  {
    if |s| >= |prefix| {
      assert (s + rest)[..|prefix|] == s[..|prefix|];
    } else {
      assert prefix[|s|] in prefix;
      if |s| < |s + rest| && |prefix| <= |s + rest| {
        assert (s + rest)[..|prefix|][|s|] == sep;
      }
    }
  }

  lemma CutAt(s: string, j: nat, word: string)
    requires j <= |s| && StartsWith(s[j..], word)
    ensures j + |word| <= |s| && s == s[..j] + word + s[j + |word|..]
  {
    assert s[j..] == word + s[j..][|word|..];
    assert s[j..][|word|..] == s[j + |word|..];
  }

  lemma CutEnd(s: string, rest: string)
    requires EndsWith(s, rest)
    ensures s == s[..|s| - |rest|] + rest
  {
  }
}
