/** Byte strings as big-endian numbers, and byte-wise comparison. */
module Words {
  import opened Types

  /** 256 to the power n. */
  function Range(n: nat): nat {
    if n == 0 then 1 else 256 * Range(n - 1)
  }

  lemma {:induction false} BytesBelowRange(bs: Bytes)
    ensures BigEndian(bs) < Range(|bs|)
  {
    if bs != [] {
      BytesBelowRange(bs[..|bs| - 1]);
    }
  }

  lemma {:induction false} RangeGrows(a: nat, b: nat)
    requires a <= b
    ensures Range(a) <= Range(b)
  {
    if a < b {
      RangeGrows(a, b - 1);
    }
  }

  lemma {:induction false} BigEndianCons(x: Byte, t: Bytes)
    ensures BigEndian([x] + t) == x * Range(|t|) + BigEndian(t)
  {
    if t == [] {
      assert ([x] + t)[..0] == [];
      assert BigEndian([x]) == BigEndian([]) * 256 + x;
    } else {
      var p, y := t[..|t| - 1], t[|t| - 1];
      BigEndianCons(x, p);
      assert ([x] + t)[..|t|] == [x] + p;
      assert x * Range(|t|) == (x * Range(|p|)) * 256;
    }
  }

  /** n in exactly `width` bytes, its higher bytes cut off. */
  function Fixed(n: nat, width: nat): (bs: Bytes)
    ensures |bs| == width
  {
    if width == 0 then [] else Fixed(n / 256, width - 1) + [n % 256]
  }

  lemma {:induction false} FixedDenotes(n: nat, width: nat)
    requires n < Range(width)
    ensures BigEndian(Fixed(n, width)) == n
  {
    if width > 0 {
      FixedDenotes(n / 256, width - 1);
      assert Fixed(n, width)[..width - 1] == Fixed(n / 256, width - 1);
    }
  }

  lemma EightBytes()
    ensures Range(8) == TWO_64
  {
    assert Range(4) == 0x1_0000_0000;
    assert Range(8) == 256 * (256 * (256 * (256 * Range(4))));
  }

  /** bytes.Compare: the first differing byte decides, then the length. */
  function Compare(a: Bytes, b: Bytes): (r: int)
    ensures -1 <= r <= 1
  {
    if a == [] && b == [] then 0
    else if a == [] then -1
    else if b == [] then 1
    else if a[0] < b[0] then -1
    else if a[0] > b[0] then 1
    else Compare(a[1..], b[1..])
  }

  /** a and b agree up to i, where a ends first or has the smaller byte. */
  ghost predicate Precedes(a: Bytes, b: Bytes, i: nat) {
    i <= |a| && i < |b| && a[..i] == b[..i] && (i == |a| || a[i] < b[i])
  }

  lemma PrecedesNext(a: Bytes, b: Bytes, i: nat)
    requires a != [] && b != [] && a[0] == b[0]
    ensures Precedes(a[1..], b[1..], i) <==> Precedes(a, b, i + 1)
    ensures !Precedes(a, b, 0)
  {
    assert a == [a[0]] + a[1..] && b == [b[0]] + b[1..];
    if i < |a| && i < |b| {
      assert a[..i + 1] == [a[0]] + a[1..][..i] && b[..i + 1] == [b[0]] + b[1..][..i];
      assert a[1..][..i] == a[..i + 1][1..] && b[1..][..i] == b[..i + 1][1..];
    }
  }

  lemma AgreeFirst(a: Bytes, b: Bytes, i: nat)
    requires i <= |a| && i <= |b| && a[..i] == b[..i]
    ensures i > 0 ==> a[0] == b[0]
  {
    if i > 0 {
      assert a[..i][0] == b[..i][0];
    }
  }

  /** On strings of any lengths, it is the lexicographic order. */
  lemma {:induction false} ComparePrecedes(a: Bytes, b: Bytes)
    ensures Compare(a, b) < 0 <==> exists i: nat :: Precedes(a, b, i)
    decreases |a|
  {
    if a == [] {
      assert b != [] ==> Precedes(a, b, 0);
    } else if b != [] && a[0] == b[0] {
      ComparePrecedes(a[1..], b[1..]);
      if i: nat :| Precedes(a[1..], b[1..], i) {
        PrecedesNext(a, b, i);
      }
      if i: nat :| Precedes(a, b, i) {
        PrecedesNext(a, b, if i == 0 then 0 else i - 1);
      }
    } else {
      assert b != [] && a[0] < b[0] ==> Precedes(a, b, 0);
      forall i: nat | Precedes(a, b, i) ensures i == 0 || b == [] || a[0] == b[0] {
        AgreeFirst(a, b, i);
      }
    }
  }

  lemma {:induction false} CompareReversed(a: Bytes, b: Bytes)
    ensures Compare(a, b) == -Compare(b, a) && (Compare(a, b) == 0 <==> a == b)
    decreases |a|
  {
    if a != [] && b != [] {
      CompareReversed(a[1..], b[1..]);
      assert a == [a[0]] + a[1..] && b == [b[0]] + b[1..];
    }
  }

  lemma StepUp(x: nat, y: nat, r: nat)
    requires x < y
    ensures x * r + r <= y * r
  {
    var d := y - x - 1;
    assert d * r >= 0;
    assert (x + 1 + d) * r == x * r + r + d * r;
  }

  lemma LeadingByteDecides(x: Byte, y: Byte, s: Bytes, t: Bytes)
    requires |s| == |t| && x < y
    ensures BigEndian([x] + s) < BigEndian([y] + t)
  {
    BigEndianCons(x, s);
    BigEndianCons(y, t);
    BytesBelowRange(s);
    StepUp(x, y, Range(|s|));
  }

  /** On strings of one length, comparing bytes is comparing the numbers they denote. */
  lemma {:induction false} CompareIsNumeric(a: Bytes, b: Bytes)
    requires |a| == |b|
    ensures Compare(a, b) < 0 <==> BigEndian(a) < BigEndian(b)
    ensures Compare(a, b) == 0 <==> a == b
    ensures Compare(a, b) > 0 <==> BigEndian(a) > BigEndian(b)
  {
    if a != [] {
      assert a == [a[0]] + a[1..] && b == [b[0]] + b[1..];
      if a[0] < b[0] {
        LeadingByteDecides(a[0], b[0], a[1..], b[1..]);
      } else if a[0] > b[0] {
        LeadingByteDecides(b[0], a[0], b[1..], a[1..]);
      } else {
        CompareIsNumeric(a[1..], b[1..]);
        BigEndianCons(a[0], a[1..]);
        BigEndianCons(b[0], b[1..]);
      }
    }
  }
}
