/** Generation is unbiased: every nonce of length n comes from the same number of random buffers. */
module NonceCounting {
  import opened Nonce

  function Pow(b: nat, e: nat): nat {
    if e == 0 then 1 else b * Pow(b, e - 1)
  }

  // ---------------------------------------------------------------- sizes of images and products

  function Image<T, U>(s: set<T>, f: T -> U): set<U> {
    set x | x in s :: f(x)
  }

  lemma {:induction false} ImageSize<T, U>(s: set<T>, f: T -> U)
    requires forall x, y | x in s && y in s && f(x) == f(y) :: x == y
    ensures |Image(s, f)| == |s|
    decreases |s|
  {
    if s == {} {
      assert Image(s, f) == {};
    } else {
      var x :| x in s;
      ImageSize(s - {x}, f);
      assert Image(s, f) == Image(s - {x}, f) + {f(x)};
    }
  }

  /** All sequences that start with an element of `heads` and go on with one of `tails`. */
  function Prepend<T>(heads: set<T>, tails: set<seq<T>>): set<seq<T>> {
    set x, rest | x in heads && rest in tails :: [x] + rest
  }

  lemma PrependMember<T>(heads: set<T>, tails: set<seq<T>>, w: seq<T>)
    ensures w in Prepend(heads, tails) <==> w != [] && w[0] in heads && w[1..] in tails
  {
    if w != [] {
      assert w == [w[0]] + w[1..];
    }
    if w in Prepend(heads, tails) {
      var x, rest :| x in heads && rest in tails && w == [x] + rest;
      assert w[1..] == rest;
    }
  }

  lemma PrependOne<T>(x: T, tails: set<seq<T>>)
    ensures |Prepend({x}, tails)| == |tails|
  {
    var f := (rest: seq<T>) => [x] + rest;
    forall r, r' | r in tails && r' in tails && f(r) == f(r')
      ensures r == r'
    {
      assert f(r)[1..] == r && f(r')[1..] == r';
    }
    ImageSize(tails, f);
    assert Prepend({x}, tails) == Image(tails, f);
  }

  lemma {:induction false} PrependSize<T>(heads: set<T>, tails: set<seq<T>>)
    ensures |Prepend(heads, tails)| == |heads| * |tails|
    decreases |heads|
  {
    if heads == {} {
      assert Prepend(heads, tails) == {};
    } else {
      var x :| x in heads;
      var others := heads - {x};
      PrependSize(others, tails);
      PrependOne(x, tails);
      PrependSplits(others, x, tails);
      assert heads == others + {x};
      DisjointSize(Prepend(others, tails), Prepend({x}, tails));
      OneMoreTimes(|others|, |tails|);
    }
  }

  lemma DisjointSize<T>(a: set<T>, b: set<T>)
    requires a !! b
    ensures |a + b| == |a| + |b|
  {
  }

  lemma OneMoreTimes(a: nat, b: nat)
    ensures (a + 1) * b == a * b + b
  {
  }

  lemma PrependSplits<T>(others: set<T>, x: T, tails: set<seq<T>>)
    requires x !in others
    ensures Prepend(others + {x}, tails) == Prepend(others, tails) + Prepend({x}, tails)
    ensures Prepend(others, tails) !! Prepend({x}, tails)
  {
    forall w
      ensures w in Prepend(others, tails) && w in Prepend({x}, tails) ==> false
    {
      PrependMember(others, tails, w);
      PrependMember({x}, tails, w);
    }
  }

  // ---------------------------------------------------------------- bytes

  /** Every byte of `s`, with `bit` clear and with `bit` set. */
  function Double(s: set<bv8>, bit: bv8): set<bv8> {
    s + Image(s, (b: bv8) => b | bit)
  }

  predicate IsBit(bit: bv8) {
    bit in {0x01, 0x02, 0x04, 0x08, 0x10, 0x20, 0x40, 0x80}
  }

  ghost predicate Clear(s: set<bv8>, bit: bv8) {
    forall b | b in s :: b & bit == 0
  }

  lemma SetBitInjective(b: bv8, b': bv8, bit: bv8)
    requires b & bit == 0 && b' & bit == 0 && b | bit == b' | bit
    ensures b == b'
  {
  }

  lemma ClearBit(x: bv8, bit: bv8)
    ensures (x & !bit) & bit == 0
    ensures x & bit == 0 ==> x & !bit == x
  {
  }

  /** Membership in `s'` is membership in `s` whatever the value of `bit`. */
  ghost predicate Ignores(s': set<bv8>, s: set<bv8>, bit: bv8) {
    forall x: bv8 :: x in s' <==> x & !bit in s
  }

  lemma DoubleIsDouble(s: set<bv8>, bit: bv8)
    requires IsBit(bit) && Clear(s, bit)
    ensures |Double(s, bit)| == 2 * |s|
    ensures Ignores(Double(s, bit), s, bit)
  {
    DoubleSize(s, bit);
    forall x: bv8
      ensures x in Double(s, bit) <==> x & !bit in s
    {
      ImageMember(s, bit, x);
      ClearBit(x, bit);
    }
  }

  lemma DoubleSize(s: set<bv8>, bit: bv8)
    requires IsBit(bit) && Clear(s, bit)
    ensures |Double(s, bit)| == 2 * |s|
  {
    var set_ := (b: bv8) => b | bit;
    forall b, b' | b in s && b' in s && set_(b) == set_(b')
      ensures b == b'
    {
      SetBitInjective(b, b', bit);
    }
    ImageSize(s, set_);
    forall x | x in s
      ensures x !in Image(s, set_)
    {
      ImageMember(s, bit, x);
    }
    DisjointSize(s, Image(s, set_));
  }

  lemma ImageMember(s: set<bv8>, bit: bv8, x: bv8)
    requires IsBit(bit) && Clear(s, bit)
    ensures x in Image(s, (b: bv8) => b | bit) <==> x & bit != 0 && x & !bit in s
  {
  }

  /** The bytes that agree with `v` on the bits of `mask`. */
  ghost predicate Agreeing(s: set<bv8>, mask: bv8, v: bv8) {
    forall x: bv8 :: x in s <==> x & mask == v
  }

  /** Letting go of one bit of the mask doubles the number of bytes that agree. */
  lemma DropBit(s: set<bv8>, mask: bv8, v: bv8, bit: bv8) returns (s': set<bv8>)
    requires Agreeing(s, mask, v)
    requires IsBit(bit) && mask & bit == bit && v & bit == 0
    ensures |s'| == 2 * |s| && Agreeing(s', mask & !bit, v)
  {
    AgreeingIsClear(s, mask, v, bit);
    DoubleIsDouble(s, bit);
    s' := Double(s, bit);
    DoubledAgrees(s, s', mask, v, bit);
  }

  lemma DoubledAgrees(s: set<bv8>, s': set<bv8>, mask: bv8, v: bv8, bit: bv8)
    requires Agreeing(s, mask, v) && mask & bit == bit && v & bit == 0
    requires Ignores(s', s, bit)
    ensures Agreeing(s', mask & !bit, v)
  {
    forall x: bv8
      ensures x in s' <==> x & (mask & !bit) == v
    {
      MaskedBit(x, mask, v, bit);
    }
  }

  lemma AgreeingIsClear(s: set<bv8>, mask: bv8, v: bv8, bit: bv8)
    requires Agreeing(s, mask, v) && mask & bit == bit && v & bit == 0
    ensures Clear(s, bit)
  {
    forall x | x in s
      ensures x & bit == 0
    {
      MaskedBit(x, mask, v, bit);
    }
  }

  lemma MaskedBit(x: bv8, mask: bv8, v: bv8, bit: bv8)
    requires mask & bit == bit && v & bit == 0
    ensures x & mask == v ==> x & bit == 0
    ensures (x & !bit) & mask == x & (mask & !bit)
  {
  }

  /** Eight bytes have the low five bits `v`. */
  lemma BytesWithLowBits(v: bv8) returns (s: set<bv8>)
    requires v & ALPHABET_MASK == v
    ensures |s| == 8 && Agreeing(s, ALPHABET_MASK, v)
  {
    assert v & 0x20 == 0 && v & 0x40 == 0 && v & 0x80 == 0;
    var s0: set<bv8> := {v};
    assert Agreeing(s0, 0xFF, v);
    var s1 := DropBit(s0, 0xFF, v, 0x20);
    var s2 := DropBit(s1, 0xDF, v, 0x40);
    s := DropBit(s2, 0x9F, v, 0x80);
  }

  /** There are 256 bytes. */
  lemma AllBytes() returns (all: set<bv8>)
    ensures |all| == 256 && forall b: bv8 :: b in all
  {
    var s3 := BytesWithLowBits(0);
    var s4 := DropBit(s3, 0x1F, 0, 0x10);
    var s5 := DropBit(s4, 0x0F, 0, 0x08);
    var s6 := DropBit(s5, 0x07, 0, 0x04);
    var s7 := DropBit(s6, 0x03, 0, 0x02);
    all := DropBit(s7, 0x01, 0, 0x01);
    forall b: bv8
      ensures b in all
    {
      assert b & 0 == 0;
    }
  }

  lemma ByteOfIndex(i: nat) returns (v: bv8)
    requires i < 32
    ensures v as nat == i && v & ALPHABET_MASK == v
  {
    v := i as bv8;
  }

  lemma SameIndexSameByte(a: bv8, b: bv8)
    requires a as nat == b as nat
    ensures a == b
  {
  }

  /** The bytes NewN turns into `c`. */
  lemma BytesForSymbol(c: char) returns (bytes: set<bv8>)
    requires InAlphabet(c)
    ensures |bytes| == 8 && forall b: bv8 :: b in bytes <==> Symbol(b) == c
  {
    var i: nat :| i < |ALPHABET| && ALPHABET[i] == c;
    var v := ByteOfIndex(i);
    bytes := BytesWithLowBits(v);
    forall b: bv8
      ensures b in bytes <==> Symbol(b) == c
    {
      MaskIsIndex(b);
      if Symbol(b) == c {
        AlphabetIsInjective((b & ALPHABET_MASK) as nat, i);
        SameIndexSameByte(b & ALPHABET_MASK, v);
      }
    }
  }

  // ---------------------------------------------------------------- buffers

  /** There are 256^n buffers of length n. */
  lemma {:induction false} AllBuffers(n: nat) returns (all: set<seq<bv8>>)
    ensures |all| == Pow(256, n) && forall buf :: buf in all <==> |buf| == n
  {
    if n == 0 {
      all := {[]};
    } else {
      var rest := AllBuffers(n - 1);
      var heads := AllBytes();
      all := Prepend(heads, rest);
      PrependSize(heads, rest);
      forall buf
        ensures buf in all <==> |buf| == n
      {
        PrependMember(heads, rest, buf);
        if |buf| == n {
          var b: bv8 := buf[0];
          assert b in heads;
        }
      }
    }
  }

  lemma {:induction false} BuffersFor(w: string) returns (bufs: set<seq<bv8>>)
    requires forall i | 0 <= i < |w| :: InAlphabet(w[i])
    ensures |bufs| == Pow(8, |w|) && forall buf :: buf in bufs <==> Symbols(buf) == w
  {
    if w == [] {
      bufs := {[]};
    } else {
      var heads := BytesForSymbol(w[0]);
      var rest := BuffersFor(w[1..]);
      bufs := Prepend(heads, rest);
      PrependSize(heads, rest);
      forall buf
        ensures buf in bufs <==> Symbols(buf) == w
      {
        PrependMember(heads, rest, buf);
        SymbolsSplit(buf, w);
      }
    }
  }

  lemma SymbolsSplit(buf: seq<bv8>, w: string)
    requires w != []
    ensures Symbols(buf) == w <==> buf != [] && Symbol(buf[0]) == w[0] && Symbols(buf[1..]) == w[1..]
  {
  }

  /** Each string of length n over the alphabet, hence each valid nonce, is the image of exactly
      8^n of the 256^n buffers of length n; in particular of at least one, and all of its preimages
      are among those buffers. */
  lemma {:induction false} GenerationIsUnbiased(w: string, all: set<seq<bv8>>, preimage: set<seq<bv8>>)
    requires forall i | 0 <= i < |w| :: InAlphabet(w[i])
    requires forall buf :: buf in all <==> |buf| == |w|
    requires forall buf :: buf in preimage <==> Symbols(buf) == w
    ensures |preimage| == Pow(8, |w|) && |all| == Pow(256, |w|)
    ensures preimage != {} && preimage <= all
  {
    AllBuffersSize(|w|, all);
    forall buf | buf in preimage
      ensures buf in all
    {
      assert |Symbols(buf)| == |buf|;
    }
    PreimageSize(w, preimage);
    PowPositive(8, |w|);
  }

  lemma {:induction false} AllBuffersSize(n: nat, all: set<seq<bv8>>)
    requires forall buf :: buf in all <==> |buf| == n
    ensures |all| == Pow(256, n)
  {
    var buffers := AllBuffers(n);
    SameMembers(buffers, all);
  }

  lemma {:induction false} PreimageSize(w: string, preimage: set<seq<bv8>>)
    requires forall i | 0 <= i < |w| :: InAlphabet(w[i])
    requires forall buf :: buf in preimage <==> Symbols(buf) == w
    ensures |preimage| == Pow(8, |w|)
  {
    var bufs := BuffersFor(w);
    SameMembers(bufs, preimage);
  }

  lemma SameMembers<T(!new)>(a: set<T>, b: set<T>)
    requires forall x :: x in a <==> x in b
    ensures a == b
  {
  }

  lemma {:induction false} PowPositive(b: nat, e: nat)
    requires b > 0
    ensures Pow(b, e) > 0
  {
    if e > 0 {
      PowPositive(b, e - 1);
    }
  }
}
