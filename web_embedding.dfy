/**
 * The integer part of `embedSentence` in the browser page (web/app.js): every
 * token is hashed over its UTF-16 code units with `hash = (hash * 31 + unit) >>> 0`
 * and counted in bucket `hash % dim`. The normalisation by the vector's norm is
 * floating point and is not part of this model.
 */
module WebEmbedding {
  const Two32: int := 0x1_0000_0000

  /** A UTF-16 code unit, what `charCodeAt` returns. */
  newtype CodeUnit = x: int | 0 <= x < 0x1_0000

  /** The UTF-16 code units of one character: itself, or a surrogate pair above U+FFFF. */
  function Utf16Char(c: char): (u: seq<CodeUnit>)
    ensures 1 <= |u| <= 2
    ensures |u| == 1 <==> c as int < 0x1_0000
    ensures |u| == 1 ==> u[0] as int == c as int
    ensures |u| == 2 ==> 0xD800 <= u[0] < 0xDC00 <= u[1] < 0xE000
    ensures |u| == 2 ==> (u[0] as int - 0xD800) * 0x400 + (u[1] as int - 0xDC00) + 0x1_0000 == c as int
  {
    if c as int < 0x1_0000 then [c as int as CodeUnit]
    else
      var v := c as int - 0x1_0000;
      [(0xD800 + v / 0x400) as CodeUnit, (0xDC00 + v % 0x400) as CodeUnit]
  }

  /** The code units `token.charCodeAt(0 .. token.length - 1)`. */
  function Utf16(s: string): (u: seq<CodeUnit>)
    ensures |s| <= |u| <= 2 * |s|
  {
    if s == [] then [] else Utf16Char(s[0]) + Utf16(s[1..])
  }

  /** The hash after all of `units`, starting from 0; `>>> 0` keeps it a uint32. */
  function HashOf(units: seq<CodeUnit>): (h: nat)
    ensures h < Two32
  {
    if units == [] then 0
    else (HashOf(units[..|units| - 1]) * 31 + units[|units| - 1] as int) % Two32
  }

  /** The unbounded polynomial `sum of units[i] * 31^(n - 1 - i)`, in Horner form. */
  function Poly(units: seq<CodeUnit>): nat
  {
    if units == [] then 0
    else Poly(units[..|units| - 1]) * 31 + units[|units| - 1] as int
  }

  lemma ModOfMultipleAdded(x: int, k: int)
    ensures (x + k * Two32) % Two32 == x % Two32
  {
  }

  /** The hash is the polynomial hash of the code units, reduced modulo 2^32. */
  lemma {:induction false} HashIsPolyMod(units: seq<CodeUnit>)
    ensures HashOf(units) == Poly(units) % Two32
  {
    if units != [] {
      var front, unit := units[..|units| - 1], units[|units| - 1] as int;
      HashIsPolyMod(front);
      var p := Poly(front);
      var h := p % Two32;
      assert p == (p / Two32) * Two32 + h;
      assert p * 31 + unit == h * 31 + unit + ((p / Two32) * 31) * Two32;
      ModOfMultipleAdded(h * 31 + unit, (p / Two32) * 31);
    }
  }

  /** The hash loop of `embedSentence` for one token. */
  method TokenHash(token: string) returns (hash: nat)
    ensures hash == HashOf(Utf16(token))
    ensures hash < Two32
  {
    var units := Utf16(token);
    hash := 0;
    for i := 0 to |units|
      invariant hash == HashOf(units[..i])
    {
      var next := hash * 31 + units[i] as int;
      // The double-precision product and sum are exact: they stay below 2^53.
      assert next < 0x20_0000_0000_0000;
      hash := next % Two32;
      assert units[..i + 1][..i] == units[..i];
    }
    assert units[..|units|] == units;
  }

  /** `hash % dim`: the bucket of a token. */
  function Bucket(hash: nat, dim: nat): (index: nat)
    requires dim > 0
    ensures index < dim
  {
    hash % dim
  }

  /** The bucket counts `vec` after counting all of `tokens`. */
  function BucketsOf(tokens: seq<string>, dim: nat): (vec: seq<nat>)
    requires dim > 0
    ensures |vec| == dim
  {
    if tokens == [] then seq(dim, _ => 0)
    else
      var vec := BucketsOf(tokens[..|tokens| - 1], dim);
      var index := Bucket(HashOf(Utf16(tokens[|tokens| - 1])), dim);
      vec[index := vec[index] + 1]
  }

  function Sum(s: seq<nat>): nat
  {
    if s == [] then 0 else s[0] + Sum(s[1..])
  }

  lemma {:induction false} SumZeros(n: nat)
    ensures Sum(seq(n, _ => 0)) == 0
  {
    if n > 0 {
      assert seq(n, _ => 0)[1..] == seq(n - 1, _ => 0);
      SumZeros(n - 1);
    }
  }

  lemma {:induction false} SumIncrement(s: seq<nat>, j: nat)
    requires j < |s|
    ensures Sum(s[j := s[j] + 1]) == Sum(s) + 1
  {
    if j > 0 {
      assert s[j := s[j] + 1][1..] == s[1..][j - 1 := s[j] + 1];
      SumIncrement(s[1..], j - 1);
    }
  }

  /** Every token is counted in exactly one bucket: the counts add up to the number of tokens. */
  lemma {:induction false} BucketsCountEveryToken(tokens: seq<string>, dim: nat)
    requires dim > 0
    ensures Sum(BucketsOf(tokens, dim)) == |tokens|
  {
    if tokens == [] {
      SumZeros(dim);
    } else {
      var front := tokens[..|tokens| - 1];
      BucketsCountEveryToken(front, dim);
      SumIncrement(BucketsOf(front, dim), Bucket(HashOf(Utf16(tokens[|tokens| - 1])), dim));
    }
  }

  /** `vec = Array(dim).fill(0)` and the `tokens.forEach` that counts each token's bucket. */
  method CountBuckets(tokens: seq<string>, dim: nat) returns (vec: array<nat>)
    requires dim > 0
    ensures fresh(vec)
    ensures vec[..] == BucketsOf(tokens, dim)
  {
    vec := new nat[dim](_ => 0);
    for i := 0 to |tokens|
      invariant vec[..] == BucketsOf(tokens[..i], dim)
    {
      var hash := TokenHash(tokens[i]);
      var index := hash % dim;
      assert tokens[..i + 1][..i] == tokens[..i];
      vec[index] := vec[index] + 1;
    }
    assert tokens[..|tokens|] == tokens;
  }
}
