/** Replacing what follows the last occurrence of a word, up to a separator: the effect of a
    greedy `s|(.*)word[^sep]*|\1wordX|`, for any word and separator. */
module Replacement {
  import opened Text

  /** The word occurs in s. */
  predicate Has(s: string, word: string) {
    s != "" && (StartsWith(s, word) || Has(s[1..], word))
  }

  /** Where it occurs last. */
  function LastAt(s: string, word: string): (j: nat)
    requires Has(s, word)
    ensures j < |s| && StartsWith(s[j..], word)
    ensures !Has(s[j + 1..], word)
  {
    if Has(s[1..], word) then LastAt(s[1..], word) + 1 else 0
  }

  lemma CutFirst(s: string, n: nat, sep: char)
    requires 1 <= n <= |s| && s[0] != sep
    ensures s[n..] == s[1..][n - 1..]
    ensures Free(s[1..][..n - 1], sep) ==> Free(s[..n], sep)
  {
    assert s[..n] == [s[0]] + s[1..][..n - 1];
    FreeAppend([s[0]], s[1..][..n - 1], sep);
  }

  /** The rest of s from the first separator on. */
  function FromSeparator(s: string, sep: char): (r: string)
    ensures EndsWith(s, r) && Free(s[..|s| - |r|], sep)
    ensures r == "" || r[0] == sep
  {
    if s == "" || s[0] == sep then s
    else
      var r := FromSeparator(s[1..], sep);
      CutFirst(s, |s| - |r|, sep);
      r
  }

  function Before(s: string, word: string): string
    requires Has(s, word)
  {
    s[..LastAt(s, word)]
  }

  function After(s: string, word: string, sep: char): string
    requires Has(s, word)
  {
    FromSeparator(s[LastAt(s, word) + |word|..], sep)
  }

  function ReplaceLast(s: string, word: string, sep: char, x: string): string
    requires Has(s, word)
  {
    Before(s, word) + word + x + After(s, word, sep)
  }

  /** s around the value that is replaced: after the last word, up to a separator. */
  predicate Around(s: string, word: string, sep: char, a: string, value: string, rest: string) {
    && s == a + word + value + rest
    && Free(value, sep) && (rest == "" || rest[0] == sep) && !Has(rest, word)
  }

  lemma {:induction false} HasAfter(a: string, b: string, word: string)
    requires Has(b, word)
    ensures Has(a + b, word)
  {
    if a == "" {
      assert a + b == b;
    } else {
      assert (a + b)[1..] == a[1..] + b;
      HasAfter(a[1..], b, word);
    }
  }

  lemma {:induction false} NoneLater(s: string, i: nat, j: nat, word: string)
    requires i <= j <= |s| && !Has(s[i..], word)
    ensures !Has(s[j..], word)
  {
    assert s[i..] == s[i..j] + s[j..];
    if Has(s[j..], word) {
      HasAfter(s[i..j], s[j..], word);
    }
  }

  lemma Regroup(a: string, b: string, c: string, d: string)
    ensures a + b + (c + d) == a + b + c + d
    ensures a + (b + c + d) == a + b + c + d
  {
  }

  lemma {:induction false} BeforeIs(s: string, word: string, j: nat)
    requires Has(s, word) && LastAt(s, word) == j
    ensures Before(s, word) == s[..j]
  {
  }

  lemma {:induction false} AfterIs(s: string, word: string, sep: char, j: nat, tail: string)
    requires Has(s, word) && LastAt(s, word) + |word| == j && s[j..] == tail
    ensures After(s, word, sep) == FromSeparator(tail, sep)
  {
    var from := LastAt(s, word) + |word|;
    assert s[from..] == tail;
  }

  /** What ends s and begins after the word's last occurrence does not have the word. */
  lemma {:induction false} NoneInRest(s: string, word: string, i: nat, rest: string)
    requires Has(s, word) && LastAt(s, word) < i <= |s| && rest == s[i..]
    ensures !Has(rest, word)
  {
    NoneLater(s, LastAt(s, word) + 1, i, word);
  }

  lemma ReplacedAround(s: string, word: string, sep: char) returns (value: string)
    requires Has(s, word) && word != ""
    ensures Around(s, word, sep, Before(s, word), value, After(s, word, sep))
  {
    var j := LastAt(s, word);
    var tail := s[j + |word|..];
    var rest := FromSeparator(tail, sep);
    value := tail[..|tail| - |rest|];
    BeforeIs(s, word, j);
    AfterIs(s, word, sep, j + |word|, tail);
    CutAt(s, j, word);
    CutEnd(tail, rest);
    Regroup(s[..j], word, value, rest);
    EndOfEnd(s, tail, rest);
    NoneInRest(s, word, |s| - |rest|, rest);
  }

  lemma EndOfEnd(s: string, tail: string, rest: string)
    requires EndsWith(s, tail) && EndsWith(tail, rest)
    ensures EndsWith(s, rest)
  {
    assert s[|s| - |rest|..] == s[|s| - |tail|..][|tail| - |rest|..];
  }

  lemma {:induction false} NoneAcross(s: string, rest: string, word: string, sep: char)
    requires !Has(s, word) && !Has(rest, word)
    requires Free(word, sep) && (rest == "" || rest[0] == sep)
    ensures !Has(s + rest, word)
  {
    if s == "" {
      assert s + rest == rest;
    } else {
      assert (s + rest)[1..] == s[1..] + rest;
      NoneAcross(s[1..], rest, word, sep);
      PrefixBefore(s, rest, word, sep);
    }
  }

  /** No occurrence begins where the word's first character does not. */
  lemma {:induction false} NoneBegins(u: string, x: string, word: string)
    requires word != "" && Free(u, word[0]) && !Has(x, word)
    ensures !Has(u + x, word)
  {
    if u == "" {
      assert u + x == x;
    } else {
      assert u[0] in u && (u + x)[1..] == u[1..] + x;
      assert u[1..] == u[1..|u|];
      FreePart(u, 1, |u|, word[0]);
      NoneBegins(u[1..], x, word);
      NotHere(u + x, word);
    }
  }

  /** A text without one of the word's characters does not have the word. */
  lemma {:induction false} NoneWithout(s: string, word: string, c: char)
    requires c in word && Free(s, c)
    ensures !Has(s, word)
  {
    if s != "" {
      FreePart(s, 1, |s|, c);
      assert s[1..] == s[1..|s|];
      NoneWithout(s[1..], word, c);
    }
  }

  lemma NotHere(s: string, word: string)
    requires s != "" && word != "" && s[0] != word[0]
    ensures !StartsWith(s, word)
  {
    if |word| <= |s| {
      assert s[..|word|][0] == s[0];
    }
  }

  lemma {:induction false} LastAtPoint(a: string, b: string, word: string)
    requires b != "" && StartsWith(b, word) && !Has(b[1..], word)
    ensures Has(a + b, word) && LastAt(a + b, word) == |a|
  {
    if a == "" {
      assert a + b == b;
    } else {
      assert (a + b)[1..] == a[1..] + b;
      LastAtPoint(a[1..], b, word);
    }
  }

  lemma {:induction false} FromSeparatorAfter(x: string, rest: string, sep: char)
    requires Free(x, sep) && (rest == "" || rest[0] == sep)
    ensures FromSeparator(x + rest, sep) == rest
  {
    if x == "" {
      assert x + rest == rest;
    } else {
      assert x[0] in x && (x + rest)[1..] == x[1..] + rest;
      FreePart(x, 1, |x|, sep);
      assert x[1..] == x[1..|x|];
      FromSeparatorAfter(x[1..], rest, sep);
    }
  }

  lemma {:induction false} LastWordAround(a: string, word: string, sep: char, x: string, rest: string)
    requires word != "" && Free(word, sep) && Free(word[1..], word[0])
    requires !Has(x, word) && !Has(rest, word) && (rest == "" || rest[0] == sep)
    ensures Has(a + word + x + rest, word) && LastAt(a + word + x + rest, word) == |a|
  {
    var option := word + x;
    assert option[1..] == word[1..] + x;
    NoneBegins(word[1..], x, word);
    NoneAcross(option[1..], rest, word, sep);
    LastWordWithin(a, option, word, x, rest);
  }

  lemma {:induction false} LastWordWithin(a: string, option: string, word: string, x: string, rest: string)
    requires word != "" && option == word + x && !Has(option[1..] + rest, word)
    ensures Has(a + word + x + rest, word) && LastAt(a + word + x + rest, word) == |a|
  {
    var b := option + rest;
    assert b[1..] == option[1..] + rest;
    assert b[..|word|] == word;
    LastAtPoint(a, b, word);
    Regroup(a, word, x, rest);
  }

  /** A second replacement overrides the first. */
  lemma {:induction false} ReplaceTwice(s: string, word: string, sep: char, x: string, y: string)
    requires Has(s, word) && word != "" && Free(word, sep) && Free(word[1..], word[0])
    requires Free(x, sep) && !Has(x, word)
    ensures Has(ReplaceLast(s, word, sep, x), word)
    ensures ReplaceLast(ReplaceLast(s, word, sep, x), word, sep, y) == ReplaceLast(s, word, sep, y)
  {
    var a, rest := Before(s, word), After(s, word, sep);
    var _ := ReplacedAround(s, word, sep);
    LastWordAround(a, word, sep, x, rest);
    FromSeparatorAfter(x, rest, sep);
    Slices(a, word, x, rest);
    var once := a + word + x + rest;
    BeforeIs(once, word, |a|);
    AfterIs(once, word, sep, |a| + |word|, x + rest);
  }

  lemma Slices(a: string, word: string, x: string, rest: string)
    ensures (a + word + x + rest)[..|a|] == a
    ensures (a + word + x + rest)[|a| + |word|..] == x + rest
  {
  }

  lemma {:induction false} ReplaceIsFree(s: string, word: string, sep: char, x: string, c: char)
    requires Has(s, word) && word != "" && Free(s, c) && Free(x, c) && Free(word, c)
    ensures Free(ReplaceLast(s, word, sep, x), c)
  {
    var a, rest := Before(s, word), After(s, word, sep);
    var value := ReplacedAround(s, word, sep);
    FreeAppend(a + word + value, rest, c);
    FreeAppend(a + word, value, c);
    FreeAppend(a, word, c);
    FreeAppend(a + word, x, c);
    FreeAppend(a + word + x, rest, c);
  }
}
