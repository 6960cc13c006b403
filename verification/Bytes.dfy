/** Binaries, big-endian integer fields, and lists of chunks. */
module Bytes {
  newtype Byte = x: int | 0 <= x < 256

  type Binary = seq<Byte>

  function Pow256(width: nat): (p: nat)
    ensures p > 0
  {
    if width == 0 then 1 else 256 * Pow256(width - 1)
  }

  /** A big-endian field of `width` bytes, keeping only the low-order bits as Erlang's
      bit syntax does. */
  function Encode(n: nat, width: nat): (b: Binary)
    ensures |b| == width
  {
    if width == 0 then [] else Encode(n / 256, width - 1) + [(n % 256) as Byte]
  }

  function Decode(b: Binary): (n: nat)
    ensures n < Pow256(|b|)
  {
    if b == [] then 0 else Decode(b[..|b| - 1]) * 256 + b[|b| - 1] as nat
  }

  lemma {:induction false} DecodeEncode(n: nat, width: nat)
    requires n < Pow256(width)
    ensures Decode(Encode(n, width)) == n
  {
    if width > 0 {
      DecodeEncode(n / 256, width - 1);
      assert Encode(n, width)[..width - 1] == Encode(n / 256, width - 1);
    }
  }

  lemma {:induction false} EncodeDecode(b: Binary)
    ensures Encode(Decode(b), |b|) == b
  {
    if b != [] {
      var init := b[..|b| - 1];
      EncodeDecode(init);
      assert Decode(b) / 256 == Decode(init);
      assert b == init + [b[|b| - 1]];
    }
  }

  // The order of the bytes: the most significant one comes first.

  lemma DecodeOne(x: Byte)
    ensures Decode([x]) == x as nat
  {
    assert [x][..0] == [];
  }

  lemma Shifted(high: nat, power: nat, low: nat, last: nat)
    ensures (high * power + low) * 256 + last == high * (256 * power) + (low * 256 + last)
  {
  }

  lemma {:induction false} DecodeConcat(a: Binary, b: Binary)
    ensures Decode(a + b) == Decode(a) * Pow256(|b|) + Decode(b)
  {
    if b == [] {
      assert a + b == a;
    } else {
      var init, last := b[..|b| - 1], b[|b| - 1];
      DecodeConcat(a, init);
      DecodeLast(a + init, last);
      DecodeLast(init, last);
      assert a + init + [last] == a + b && init + [last] == b;
      hide Decode;
      Shifted(Decode(a), Pow256(|init|), Decode(init), last as nat);
    }
  }

  lemma DecodeLast(init: Binary, last: Byte)
    ensures Decode(init + [last]) == Decode(init) * 256 + last as nat
  {
    assert (init + [last])[..|init|] == init;
  }

  lemma DivDiv(n: nat, p: nat)
    requires p > 0
    ensures n / 256 / p == n / (256 * p)
  {
    var q := n / 256 / p;
    assert q * p <= n / 256 < q * p + p;
    assert 256 * (q * p) <= n < 256 * (q * p + p);
    assert 256 * (q * p) == q * (256 * p);
    Quotient(n, 256 * p, q);
  }

  lemma TimesMonotone(a: nat, b: nat, d: nat)
    ensures a <= b ==> a * d <= b * d
  {
    if a <= b {
      assert b * d == a * d + (b - a) * d;
    }
  }

  lemma Quotient(n: nat, d: nat, q: nat)
    requires d > 0 && q * d <= n < q * d + d
    ensures n / d == q
  {
    var m := n / d;
    assert m * d <= n < m * d + d;
    assert (m + 1) * d == m * d + d && (q + 1) * d == q * d + d;
    TimesMonotone(m + 1, q, d);
    TimesMonotone(q + 1, m, d);
  }

  /** Each byte of a field, from the number alone. */
  lemma {:induction false} EncodeAt(n: nat, width: nat, i: nat)
    requires i < width
    ensures Encode(n, width)[i] as nat == n / Pow256(width - 1 - i) % 256
  {
    if i < width - 1 {
      EncodeAt(n / 256, width - 1, i);
      DivDiv(n, Pow256(width - 2 - i));
      assert Pow256(width - 1 - i) == 256 * Pow256(width - 2 - i);
    } else {
      assert Pow256(0) == 1;
    }
  }

  lemma Powers()
    ensures Pow256(0) == 1 && Pow256(1) == 0x100 && Pow256(2) == 0x1_0000 && Pow256(3) == 0x100_0000
  {
    assert Pow256(1) == 256 * Pow256(0);
    assert Pow256(2) == 256 * Pow256(1);
    assert Pow256(3) == 256 * Pow256(2);
  }

  lemma Field2(n: nat)
    requires n < 0x1_0000
    ensures Encode(n, 2) == [(n / 0x100) as Byte, (n % 0x100) as Byte]
  {
    Powers();
    EncodeAt(n, 2, 0);
    EncodeAt(n, 2, 1);
  }

  lemma Field4(n: nat)
    requires n < 0x1_0000_0000
    ensures Encode(n, 4) == [(n / 0x100_0000) as Byte, (n / 0x1_0000 % 0x100) as Byte,
                             (n / 0x100 % 0x100) as Byte, (n % 0x100) as Byte]
  {
    Powers();
    EncodeAt(n, 4, 0);
    EncodeAt(n, 4, 1);
    EncodeAt(n, 4, 2);
    EncodeAt(n, 4, 3);
  }

  lemma Read2(a: Byte, b: Byte)
    ensures Decode([a, b]) == a as nat * 0x100 + b as nat
  {
    Powers();
    assert [a, b] == [a] + [b];
    DecodeConcat([a], [b]);
    DecodeOne(a);
    DecodeOne(b);
  }

  lemma Read4(a: Byte, b: Byte, c: Byte, d: Byte)
    ensures Decode([a, b, c, d]) == a as nat * 0x100_0000 + b as nat * 0x1_0000 + c as nat * 0x100 + d as nat
  {
    Powers();
    assert [a, b, c, d] == [a, b] + [c, d];
    DecodeConcat([a, b], [c, d]);
    Read2(a, b);
    Read2(c, d);
  }

  lemma FieldRanges()
    ensures Pow256(2) == 0x1_0000
    ensures Pow256(4) == 0x1_0000_0000
  {
    assert Pow256(1) == 256;
    assert Pow256(3) == 256 * Pow256(2);
  }

  // ----- lists

  function Reverse<T>(s: seq<T>): (r: seq<T>)
    ensures |r| == |s|
  {
    if s == [] then [] else Reverse(s[1..]) + [s[0]]
  }

  function Concat(chunks: seq<Binary>): Binary {
    if chunks == [] then [] else chunks[0] + Concat(chunks[1..])
  }

  lemma Assoc<T>(a: seq<T>, b: seq<T>, c: seq<T>)
    ensures a + b + c == a + (b + c)
  {
  }

  /** Neighbouring slices make one. */
  lemma Seam<T>(s: seq<T>, i: nat, j: nat)
    requires i <= j <= |s|
    ensures s[..i] + s[i..j] == s[..j]
    ensures s[..j] + s[j..] == s
  {
  }

  /** The head and tail of a nonempty list that has something appended. */
  lemma TailAppend<T>(a: seq<T>, b: seq<T>)
    requires a != []
    ensures (a + b)[0] == a[0] && (a + b)[1..] == a[1..] + b
  {
  }

  lemma {:induction false} ConcatSplit(a: seq<Binary>, b: seq<Binary>)
    ensures Concat(a + b) == Concat(a) + Concat(b)
  {
    if a == [] {
      assert a + b == b;
    } else {
      ConcatSplit(a[1..], b);
      TailAppend(a, b);
      Assoc(a[0], Concat(a[1..]), Concat(b));
    }
  }

  /** The bytes of a chunk list kept newest first. */
  function Collected(newestFirst: seq<Binary>): Binary {
    Concat(Reverse(newestFirst))
  }

  lemma CollectedCons(chunk: Binary, chunks: seq<Binary>)
    ensures Collected([chunk] + chunks) == Collected(chunks) + chunk
  {
    assert ([chunk] + chunks)[1..] == chunks;
    ConcatSplit(Reverse(chunks), [chunk]);
    assert Concat([chunk]) == chunk;
  }
}
