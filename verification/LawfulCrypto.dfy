/** The laws assumed of the cryptography can be met: an (insecure) instance that meets them. */
module LawfulCrypto {
  import opened Text
  import opened Blobs

  /** A character has fewer than 2^24 values. */
  function CharBytes(c: char): Bytes {
    var high := c as int / 256;
    [(high / 256 % 256) as byte, (high % 256) as byte, (c as int % 256) as byte]
  }

  function Utf(s: string): (b: Bytes)
    ensures |b| == 3 * |s|
  {
    if s == "" then [] else CharBytes(s[0]) + Utf(s[1..])
  }

  lemma CharBytesInjective(c: char, d: char)
    requires CharBytes(c) == CharBytes(d)
    ensures c == d
  {
    var h, k := c as int / 256, d as int / 256;
    assert h / 256 % 256 == h / 256 && k / 256 % 256 == k / 256;
    assert CharBytes(c)[0] == CharBytes(d)[0] && CharBytes(c)[1] == CharBytes(d)[1] && CharBytes(c)[2] == CharBytes(d)[2];
    assert h == 256 * (h / 256) + h % 256 && k == 256 * (k / 256) + k % 256;
    assert h == k;
  }

  lemma {:induction false} UtfInjects(s: string, t: string)
    requires Utf(s) == Utf(t)
    ensures s == t
  {
    if s != "" {
      assert Utf(s)[..3] == CharBytes(s[0]) && Utf(t)[..3] == CharBytes(t[0]);
      assert Utf(s)[3..] == Utf(s[1..]) && Utf(t)[3..] == Utf(t[1..]);
      CharBytesInjective(s[0], t[0]);
      UtfInjects(s[1..], t[1..]);
    }
  }

  function Letters(b: Bytes): (s: string)
    ensures |s| == 2 * |b| && forall c :: c in s ==> 'A' <= c <= 'P'
  {
    if b == [] then ""
    else ['A' + (b[0] as int / 16) as char, 'A' + (b[0] as int % 16) as char] + Letters(b[1..])
  }

  lemma {:induction false} LettersInject(a: Bytes, b: Bytes)
    requires Letters(a) == Letters(b)
    ensures a == b
  {
    if a != [] {
      assert Letters(a)[2..] == Letters(a[1..]) && Letters(b)[2..] == Letters(b[1..]);
      assert Letters(a)[0] == Letters(b)[0] && Letters(a)[1] == Letters(b)[1];
      LettersInject(a[1..], b[1..]);
    }
  }

  function Zeros(n: nat): (b: Bytes)
    ensures |b| == n && forall i :: 0 <= i < n ==> b[i] == 0
  {
    seq(n, i => 0)
  }

  /** A sequence behind its length. */
  function Framed(x: Bytes, rest: Bytes): Bytes {
    Zeros(|x|) + [1] + (x + rest)
  }

  lemma FramedInjects(x: Bytes, r: Bytes, y: Bytes, s: Bytes)
    requires Framed(x, r) == Framed(y, s)
    ensures x == y && r == s
  {
    var a, b := Framed(x, r), Framed(y, s);
    assert a[|x|] == 1 && b[|y|] == 1;
    assert |x| == |y|;
    assert a[|x| + 1..] == x + r && b[|x| + 1..] == y + s;
    assert (x + r)[..|x|] == x && (y + s)[..|x|] == y;
    assert (x + r)[|x|..] == r && (y + s)[|x|..] == s;
  }

  function Sealing(k: Bytes, p: Bytes, a: Bytes): (c: Bytes)
    ensures |c| >= TAG_SIZE
  {
    Zeros(TAG_SIZE) + Framed(k, Framed(a, p))
  }

  lemma SealingInjects(k: Bytes, p: Bytes, a: Bytes, l: Bytes, q: Bytes, b: Bytes)
    requires Sealing(k, p, a) == Sealing(l, q, b)
    ensures k == l && p == q && a == b
  {
    assert Sealing(k, p, a)[TAG_SIZE..] == Framed(k, Framed(a, p));
    assert Sealing(l, q, b)[TAG_SIZE..] == Framed(l, Framed(b, q));
    FramedInjects(k, Framed(a, p), l, Framed(b, q));
    FramedInjects(a, p, b, q);
  }

  ghost function Unseal(l: Bytes, c: Bytes, b: Bytes): Option<Bytes> {
    if exists p :: c == Sealing(l, p, b) then
      var p :| c == Sealing(l, p, b);
      Some(p)
    else None
  }

  ghost function FromLetters(s: string): Option<Bytes> {
    if exists b :: s == Letters(b) then
      var b :| s == Letters(b);
      Some(b)
    else None
  }

  ghost function FromUtf(b: Bytes): Option<string> {
    if exists s :: b == Utf(s) then
      var s :| b == Utf(s);
      Some(s)
    else None
  }

  /** The laws of `Blobs.Lawful` do not contradict each other. */
  lemma LawsCanBeMet() returns (c: Crypto)
    ensures Lawful(c)
  {
    c := Crypto(
      (key, salt, cost) => Utf(key),
      (k, n, p, a) => Sealing(k, p, a),
      (l, n, x, b) => Unseal(l, x, b),
      b => Letters(b),
      s => FromLetters(s),
      s => Utf(s),
      b => FromUtf(b));
    forall k, n, p, a ensures c.open(k, n, c.seal(k, n, p, a), a) == Some(p) {
      var q := Unseal(k, Sealing(k, p, a), a).value;
      SealingInjects(k, p, a, k, q, a);
    }
    forall k, n, p, a, l, b | c.open(l, n, c.seal(k, n, p, a), b).Some? ensures l == k && b == a {
      var q := Unseal(l, Sealing(k, p, a), b).value;
      SealingInjects(k, p, a, l, q, b);
    }
    forall k, l, s, cost | c.derive(k, s, cost) == c.derive(l, s, cost) ensures k == l {
      UtfInjects(k, l);
    }
    forall b ensures c.decode(c.encode(b)) == Some(b) && PlainText(c.encode(b)) {
      LettersInject(b, FromLetters(Letters(b)).value);
    }
    forall s ensures c.text(c.utf8(s)) == Some(s) {
      UtfInjects(s, FromUtf(Utf(s)).value);
    }
  }
}
