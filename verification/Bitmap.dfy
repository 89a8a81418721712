/** The word bitmaps of src/shm_util.h, as 64-bit vectors. */
module Bitmap {

  /** BITMAP_BITS2GROUPS */
  function Groups(nbits: nat): nat { (nbits + 63) / 64 }

  /** Bit `p` of a word. */
  predicate BitAt(w: bv64, p: bv6) {
    (w >> p) & 1 == 1
  }

  /** A position in a word, 0 to 63, as the shift amount. */
  function Pos(k: nat): bv6
    requires k < 64
  {
    k as bv6
  }

  predicate WordBit(w: bv64, k: nat)
    requires k < 64
  {
    BitAt(w, Pos(k))
  }

  /** Bit `n` of the bitmap whose words are `s`. */
  predicate Bit(s: seq<bv64>, n: nat)
    requires n < 64 * |s|
  {
    WordBit(s[n / 64], n % 64)
  }

  /** The bits that are set. */
  ghost function Bits(s: seq<bv64>): set<nat> {
    set n: nat | n < 64 * |s| && Bit(s, n)
  }

  // ----- single words -----

  function SetAt(w: bv64, p: bv6): bv64 { w | ((1 as bv64) << p) }

  function ClearAt(w: bv64, p: bv6): bv64 { w & !((1 as bv64) << p) }

  /** The bits at positions from `p` up. */
  function FromAt(w: bv64, p: bv6): bv64 { w & !(((1 as bv64) << p) - 1) }

  function Inverse(w: bv64): bv64 { !w }

  lemma SetAtBit(w: bv64, p: bv6, q: bv6)
    ensures BitAt(SetAt(w, p), q) <==> q == p || BitAt(w, q)
  {
  }

  lemma ClearAtBit(w: bv64, p: bv6, q: bv6)
    ensures BitAt(ClearAt(w, p), q) <==> q != p && BitAt(w, q)
  {
  }

  lemma FromAtBit(w: bv64, p: bv6, q: bv6)
    ensures BitAt(FromAt(w, p), q) <==> q >= p && BitAt(w, q)
  {
  }

  lemma InverseBit(w: bv64, q: bv6)
    ensures BitAt(Inverse(w), q) <==> !BitAt(w, q)
  {
  }

  lemma PosValue(k: nat)
    requires k < 64
    ensures Pos(k) as int == k
  {
  }

  lemma OrderValue(p: bv6, q: bv6)
    ensures p >= q <==> p as int >= q as int
  {
  }

  lemma PosOrder(k: nat, j: nat)
    requires k < 64 && j < 64
    ensures Pos(j) >= Pos(k) <==> j >= k
    ensures Pos(j) == Pos(k) <==> j == k
  {
    PosValue(k);
    PosValue(j);
    OrderValue(Pos(j), Pos(k));
  }

  /** The find-first-set built-in: one more than the least set position, 0 for an empty word. */
  function Ffs(w: bv64): (bit: nat)
    ensures bit <= 64
    ensures bit == 0 <==> forall j: nat :: j < 64 ==> !WordBit(w, j)
    ensures bit > 0 ==> WordBit(w, bit - 1) && forall j: nat :: j < bit - 1 ==> !WordBit(w, j)
  {
    FfsFrom(w, 0)
  }

  function FfsFrom(w: bv64, k: nat): (bit: nat)
    requires k <= 64
    ensures bit == 0 || k < bit <= 64
    ensures bit == 0 <==> forall j: nat :: k <= j < 64 ==> !WordBit(w, j)
    ensures bit > 0 ==> WordBit(w, bit - 1) && forall j: nat :: k <= j < bit - 1 ==> !WordBit(w, j)
    decreases 64 - k
  {
    if k == 64 then 0 else if WordBit(w, k) then k + 1 else FfsFrom(w, k + 1)
  }

  // ----- bitmaps -----

  lemma SetBits(s: seq<bv64>, n: nat)
    requires n < 64 * |s|
    ensures Bits(s[n / 64 := SetAt(s[n / 64], Pos(n % 64))]) == Bits(s) + {n}
  {
    var s' := s[n / 64 := SetAt(s[n / 64], Pos(n % 64))];
    forall i: nat | i < 64 * |s| ensures Bit(s', i) <==> i == n || Bit(s, i) {
      SetAtBit(s[n / 64], Pos(n % 64), Pos(i % 64));
      PosOrder(n % 64, i % 64);
    }
  }

  lemma ClearBits(s: seq<bv64>, n: nat)
    requires n < 64 * |s|
    ensures Bits(s[n / 64 := ClearAt(s[n / 64], Pos(n % 64))]) == Bits(s) - {n}
  {
    var s' := s[n / 64 := ClearAt(s[n / 64], Pos(n % 64))];
    forall i: nat | i < 64 * |s| ensures Bit(s', i) <==> i != n && Bit(s, i) {
      ClearAtBit(s[n / 64], Pos(n % 64), Pos(i % 64));
      PosOrder(n % 64, i % 64);
    }
  }

  /** bitmap_set */
  method BitmapSet(bitmap: array<bv64>, n: nat)
    requires n < 64 * bitmap.Length
    modifies bitmap
    ensures Bits(bitmap[..]) == Bits(old(bitmap[..])) + {n}
  {
    SetBits(bitmap[..], n);
    bitmap[n / 64] := SetAt(bitmap[n / 64], Pos(n % 64));
    assert bitmap[..] == old(bitmap[..])[n / 64 := SetAt(old(bitmap[..])[n / 64], Pos(n % 64))];
  }

  /** bitmap_clear */
  method BitmapClear(bitmap: array<bv64>, n: nat)
    requires n < 64 * bitmap.Length
    modifies bitmap
    ensures Bits(bitmap[..]) == Bits(old(bitmap[..])) - {n}
  {
    ClearBits(bitmap[..], n);
    bitmap[n / 64] := ClearAt(bitmap[n / 64], Pos(n % 64));
    assert bitmap[..] == old(bitmap[..])[n / 64 := ClearAt(old(bitmap[..])[n / 64], Pos(n % 64))];
  }

  /** bitmap_get */
  method BitmapGet(bitmap: array<bv64>, n: nat) returns (r: bool)
    requires n < 64 * bitmap.Length
    ensures r <==> n in Bits(bitmap[..])
  {
    r := WordBit(bitmap[n / 64], n % 64);
  }

  /** bitmap_ffu. Whole words are searched, so the answer can lie between `b` and the end of
      the last word if `b` is not a multiple of 64. */
  method BitmapFfu(bitmap: array<bv64>, b: nat) returns (r: nat)
    requires Groups(b) <= bitmap.Length
    ensures
      || (r < 64 * Groups(b) && r !in Bits(bitmap[..]) && forall j: nat :: j < r ==> j in Bits(bitmap[..]))
      || (r == b && forall j: nat :: j < 64 * Groups(b) ==> j in Bits(bitmap[..]))
  {
    r := b;
    hide Bit, WordBit, BitAt, Pos, Inverse, Ffs;
    var l := Groups(b);
    for i := 0 to l
      invariant r == b
      invariant forall j: nat :: j < 64 * i ==> j in Bits(bitmap[..])
    {
      var bit := Ffs(Inverse(bitmap[i]));
      if bit != 0 {
        r := 64 * i + (bit - 1);
        UnsetInWord(bitmap[..], i, bit - 1);
        break;
      }
      FullWord(bitmap[..], i);
    }
  }

  lemma Index(i: nat, k: nat)
    requires k < 64
    ensures (64 * i + k) / 64 == i && (64 * i + k) % 64 == k
  {
  }

  /** Bit `k` of word `i` is bit `64 * i + k` of the bitmap. */
  lemma InWord(s: seq<bv64>, i: nat, k: nat)
    requires i < |s| && k < 64
    ensures 64 * i + k in Bits(s) <==> WordBit(s[i], k)
  {
    Index(i, k);
  }

  lemma UnsetInWord(s: seq<bv64>, i: nat, k: nat)
    requires i < |s| && k < 64 && Ffs(Inverse(s[i])) == k + 1
    ensures 64 * i + k !in Bits(s) && forall j: nat :: 64 * i <= j < 64 * i + k ==> j in Bits(s)
  {
    hide Bit, BitAt, Pos, Inverse;
    InWord(s, i, k);
    InverseBit(s[i], Pos(k));
    forall j: nat | 64 * i <= j < 64 * i + k ensures j in Bits(s) {
      UnsetBefore(s, i, k, j - 64 * i);
    }
  }

  lemma UnsetBefore(s: seq<bv64>, i: nat, k: nat, q: nat)
    requires i < |s| && k < 64 && Ffs(Inverse(s[i])) == k + 1 && q < k
    ensures 64 * i + q in Bits(s)
  {
    assert !WordBit(Inverse(s[i]), q);
    InverseBit(s[i], Pos(q));
    InWord(s, i, q);
  }

  lemma FullWord(s: seq<bv64>, i: nat)
    requires i < |s| && Ffs(Inverse(s[i])) == 0
    ensures forall j: nat :: 64 * i <= j < 64 * i + 64 ==> j in Bits(s)
  {
    forall j: nat | 64 * i <= j < 64 * i + 64 ensures j in Bits(s) {
      FullAt(s, i, j - 64 * i);
    }
  }

  lemma FullAt(s: seq<bv64>, i: nat, q: nat)
    requires i < |s| && Ffs(Inverse(s[i])) == 0 && q < 64
    ensures 64 * i + q in Bits(s)
  {
    assert !WordBit(Inverse(s[i]), q);
    InverseBit(s[i], Pos(q));
    InWord(s, i, q);
  }

  /** `g` is the part of word `i` at positions from `n` up. */
  ghost predicate WordPart(s: seq<bv64>, i: nat, n: nat, g: bv64)
    requires i < |s|
  {
    forall j: nat :: j < 64 ==> (WordBit(g, j) <==> 64 * i + j >= n && WordBit(s[i], j))
  }

  lemma InPart(s: seq<bv64>, i: nat, n: nat, g: bv64, q: nat)
    requires i < |s| && WordPart(s, i, n, g) && q < 64 && 64 * i + q >= n
    ensures 64 * i + q in Bits(s) <==> WordBit(g, q)
  {
    InWord(s, i, q);
  }

  lemma SetInPart(s: seq<bv64>, i: nat, n: nat, g: bv64)
    requires i < |s| && WordPart(s, i, n, g)
    ensures Ffs(g) != 0 ==> var r := 64 * i + (Ffs(g) - 1);
      r >= n && r in Bits(s) && forall j: nat :: 64 * i <= j < r && n <= j ==> j !in Bits(s)
    ensures Ffs(g) == 0 ==> forall j: nat :: 64 * i <= j < 64 * i + 64 && n <= j ==> j !in Bits(s)
  {
    hide Bit, WordBit, BitAt, Pos, FromAt, Ffs;
    var bit := Ffs(g);
    if bit != 0 {
      InPart(s, i, n, g, bit - 1);
    }
    forall j: nat | 64 * i <= j < 64 * i + (if bit == 0 then 64 else bit - 1) && n <= j ensures j !in Bits(s) {
      assert !WordBit(g, j - 64 * i);
      InPart(s, i, n, g, j - 64 * i);
    }
  }

  lemma FirstPartAt(s: seq<bv64>, n: nat, k: nat)
    requires n / 64 < |s| && k < 64
    ensures WordBit(FromAt(s[n / 64], Pos(n % 64)), k) <==> 64 * (n / 64) + k >= n && WordBit(s[n / 64], k)
  {
    hide BitAt, Pos, FromAt;
    FromAtBit(s[n / 64], Pos(n % 64), Pos(k));
    PosOrder(n % 64, k);
  }

  /** The first word of a search from `n`. */
  lemma FirstPart(s: seq<bv64>, n: nat)
    requires n / 64 < |s|
    ensures WordPart(s, n / 64, n, FromAt(s[n / 64], Pos(n % 64)))
  {
    hide WordBit, BitAt, Pos, FromAt;
    forall k: nat | k < 64
      ensures WordBit(FromAt(s[n / 64], Pos(n % 64)), k) <==> 64 * (n / 64) + k >= n && WordBit(s[n / 64], k) {
      FirstPartAt(s, n, k);
    }
  }

  lemma GroupOf(n: nat, b: nat)
    requires n < b
    ensures n / 64 < Groups(b) && 64 * (n / 64) <= n < 64 * (n / 64) + 64
  {
  }

  /** A later word counts as a whole. */
  lemma LaterPart(s: seq<bv64>, i: nat, n: nat)
    requires i < |s| && n <= 64 * i
    ensures WordPart(s, i, n, s[i])
  {
  }

  /** bitmap_ffsp. The source reads the word after the last one before testing that it is past
      the end, and does not use it; here the test comes first. */
  method BitmapFfsp(bitmap: array<bv64>, n: nat, b: nat) returns (r: nat)
    requires n < b && Groups(b) <= bitmap.Length
    ensures
      || (n <= r < 64 * Groups(b) && r in Bits(bitmap[..]) && forall j: nat :: n <= j < r ==> j !in Bits(bitmap[..]))
      || (r == b && forall j: nat :: n <= j < 64 * Groups(b) ==> j !in Bits(bitmap[..]))
  {
    hide Bit, WordBit, BitAt, Pos, FromAt, Ffs;
    GroupOf(n, b);
    ghost var s := bitmap[..];
    r := b;
    var l := Groups(b);
    var i := n / 64;
    var g := FromAt(bitmap[i], Pos(n % 64));
    FirstPart(s, n);
    while i < l
      invariant i <= l && n < 64 * i + 64 && r == b
      invariant i < l ==> WordPart(s, i, n, g)
      invariant forall j: nat :: n <= j < 64 * i ==> j !in Bits(s)
      decreases l - i
    {
      SetInPart(s, i, n, g);
      var bit := Ffs(g);
      if bit != 0 {
        r := 64 * i + (bit - 1);
        break;
      }
      i := i + 1;
      if i < l {
        g := bitmap[i];
        LaterPart(s, i, n);
      }
    }
  }

  lemma GroupsCover(b: nat)
    ensures b <= 64 * Groups(b)
  {
  }

  /** bitmap_sfu. If no bit below `b` is clear the answer is at least `b`, and nothing changes. */
  method BitmapSfu(bitmap: array<bv64>, b: nat) returns (r: nat)
    requires Groups(b) <= bitmap.Length
    modifies bitmap
    ensures forall j: nat :: j < r && j < b ==> j in Bits(old(bitmap[..]))
    ensures r < b ==> r !in Bits(old(bitmap[..])) && Bits(bitmap[..]) == Bits(old(bitmap[..])) + {r}
    ensures r >= b ==> bitmap[..] == old(bitmap[..])
    ensures r == b || r < 64 * Groups(b)
  {
    hide Bits, Groups;
    GroupsCover(b);
    ghost var s := bitmap[..];
    r := BitmapFfu(bitmap, b);
    assert bitmap[..] == s;
    assert forall j: nat :: j < r && j < b ==> j in Bits(s);
    if r < b {
      BitmapSet(bitmap, r);
    }
  }

  lemma NoBits(s: seq<bv64>)
    requires forall i :: 0 <= i < |s| ==> s[i] == 0
    ensures Bits(s) == {}
  {
  }
}
