/** Bytes, text held as its UTF-8 bytes, the byte-wise order on text, and big-endian integers. */
module Bytes {
  import opened Sorting

  type byte = n: nat | n < 256

  /** An identifier or other Rust `String`, held as its UTF-8 bytes. */
  type Text = seq<byte>

  /** A 32-byte public key. */
  type Key32 = s: seq<byte> | |s| == 32 witness seq(32, _ => 0)

  const U64_LIMIT: nat := 0x1_0000_0000_0000_0000

  type u64 = n: nat | n < U64_LIMIT

  predicate IsAscii(s: string) {
    forall i :: 0 <= i < |s| ==> s[i] as int < 128
  }

  /** The bytes of an ASCII literal. */
  function Ascii(s: string): (r: seq<byte>)
    requires IsAscii(s)
    ensures |r| == |s|
    ensures forall i :: 0 <= i < |s| ==> r[i] == s[i] as int
  {
    seq<byte>(|s|, i requires 0 <= i < |s| => s[i] as int)
  }

  /** Byte-wise comparison: the order of SQLite's BINARY collation and of Rust's `String`. */
  predicate LexLe(a: Text, b: Text) {
    || a == []
    || (b != [] && (a[0] < b[0] || (a[0] == b[0] && LexLe(a[1..], b[1..]))))
  }

  /** Byte `k` is the first at which the two differ, and `a` is smaller there. */
  predicate SmallerAt(a: Text, b: Text, k: nat) {
    k < |a| && k < |b| && a[..k] == b[..k] && a[k] < b[k]
  }

  lemma SmallerLater(a: Text, b: Text, k: nat)
    requires a != [] && b != [] && a[0] == b[0]
    ensures SmallerAt(a, b, k + 1) <==> SmallerAt(a[1..], b[1..], k)
    ensures !SmallerAt(a, b, 0)
  {
    if k < |a[1..]| && k < |b[1..]| {
      assert a[..k + 1] == [a[0]] + a[1..][..k] && b[..k + 1] == [b[0]] + b[1..][..k];
      assert a[1..][..k] == a[..k + 1][1..] && b[1..][..k] == b[..k + 1][1..];
    }
  }

  lemma SmallerFirst(a: Text, b: Text, k: nat)
    requires a != [] && b != [] && a[0] != b[0]
    ensures SmallerAt(a, b, k) <==> k == 0 && a[0] < b[0]
  {
    if 0 < k < |a| && k < |b| {
      assert a[..k][0] == a[0] && b[..k][0] == b[0];
    } else if k == 0 {
      assert a[..0] == b[..0];
    }
  }

  lemma PrefixLater(a: Text, b: Text)
    requires a != [] && b != []
    ensures a <= b <==> a[0] == b[0] && a[1..] <= b[1..]
  {
    assert a == [a[0]] + a[1..] && b == [b[0]] + b[1..];
  }

  /** The order without recursion: a prefix, or smaller at the first byte that differs. */
  lemma {:induction false} LexLeMeans(a: Text, b: Text)
    ensures LexLe(a, b) <==> a <= b || exists k: nat :: SmallerAt(a, b, k)
  {
    if a != [] && b != [] {
      PrefixLater(a, b);
      if a[0] == b[0] {
        LexLeMeans(a[1..], b[1..]);
        forall k: nat ensures SmallerAt(a, b, k + 1) <==> SmallerAt(a[1..], b[1..], k) {
          SmallerLater(a, b, k);
        }
        SmallerLater(a, b, 0);
        if k: nat :| SmallerAt(a, b, k) {
          assert SmallerAt(a[1..], b[1..], k - 1);
        }
      } else {
        SmallerFirst(a, b, 0);
        forall k: nat ensures SmallerAt(a, b, k) ==> a[0] < b[0] {
          SmallerFirst(a, b, k);
        }
      }
    }
  }

  lemma {:induction false} LexLeTotal(a: Text, b: Text)
    ensures LexLe(a, b) || LexLe(b, a)
  {
    if a != [] && b != [] {
      LexLeTotal(a[1..], b[1..]);
    }
  }

  lemma {:induction false} LexLeAntisymmetric(a: Text, b: Text)
    requires LexLe(a, b) && LexLe(b, a)
    ensures a == b
  {
    if a != [] && b != [] {
      LexLeAntisymmetric(a[1..], b[1..]);
      assert a == [a[0]] + a[1..] && b == [b[0]] + b[1..];
    }
  }

  lemma {:induction false} LexLeTransitive(a: Text, b: Text, c: Text)
    requires LexLe(a, b) && LexLe(b, c)
    ensures LexLe(a, c)
  {
    if a != [] && b != [] && c != [] && a[0] == b[0] == c[0] {
      LexLeTransitive(a[1..], b[1..], c[1..]);
    }
  }

  lemma TextOrder()
    ensures TotalOrder(LexLe)
  {
    forall a: Text, b: Text ensures LexLe(a, b) || LexLe(b, a) { LexLeTotal(a, b); }
    forall a: Text, b: Text | LexLe(a, b) && LexLe(b, a) ensures a == b { LexLeAntisymmetric(a, b); }
    forall a: Text, b: Text, c: Text | LexLe(a, b) && LexLe(b, c) ensures LexLe(a, c) { LexLeTransitive(a, b, c); }
  }

  /** The sort key of rows ordered by creation time, then id. */
  datatype TimedKey = TimedKey(createdAt: nat, id: Text)

  predicate TimedLe(a: TimedKey, b: TimedKey) {
    a.createdAt < b.createdAt || (a.createdAt == b.createdAt && LexLe(a.id, b.id))
  }

  lemma TimedOrder()
    ensures TotalOrder(TimedLe)
  {
    TextOrder();
  }

  /** `n.to_be_bytes()`, keeping the low `width` bytes. */
  function BigEndian(n: nat, width: nat): (r: seq<byte>)
    ensures |r| == width
  {
    if width == 0 then [] else BigEndian(n / 256, width - 1) + [n % 256]
  }

  function Pow256(width: nat): (r: nat)
    ensures r > 0
  {
    if width == 0 then 1 else 256 * Pow256(width - 1)
  }

  /** Two integers that fit in `width` bytes have the same encoding only if they are equal. */
  lemma {:induction false} BigEndianInjective(m: nat, n: nat, width: nat)
    requires m < Pow256(width) && n < Pow256(width)
    requires BigEndian(m, width) == BigEndian(n, width)
    ensures m == n
  {
    if width > 0 {
      var bm, bn := BigEndian(m, width), BigEndian(n, width);
      assert bm[width - 1] == m % 256 && bn[width - 1] == n % 256;
      assert bm[..width - 1] == BigEndian(m / 256, width - 1);
      assert bn[..width - 1] == BigEndian(n / 256, width - 1);
      BigEndianInjective(m / 256, n / 256, width - 1);
    }
  }

  /** Eight bytes hold every `u64`. */
  lemma U64Injective(m: u64, n: u64)
    requires BigEndian(m, 8) == BigEndian(n, 8)
    ensures m == n
  {
    assert Pow256(4) == 0x1_0000_0000;
    assert Pow256(8) == U64_LIMIT;
    BigEndianInjective(m, n, 8);
  }

  /** Cutting two equal concatenations at the same place gives equal pieces. */
  lemma SameSplit<T>(a: seq<T>, b: seq<T>, c: seq<T>, d: seq<T>)
    requires a + b == c + d
    requires |a| == |c| || |b| == |d|
    ensures a == c && b == d
  {
    assert |a| + |b| == |c| + |d|;
    assert (a + b)[..|a|] == a && (c + d)[..|c|] == c;
    assert (a + b)[|a|..] == b && (c + d)[|c|..] == d;
  }
}
