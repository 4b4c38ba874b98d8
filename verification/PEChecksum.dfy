/** PEFile::ComputeChecksum: the image's 16-bit words summed with the carries folded in, plus its length. */
module PEChecksum {
  import opened Units

  function Word(low: int, high: int): int { low + 256 * high }

  /** The word at an offset, as it counts: not at all in the checksum field. */
  function WordAt(data: seq<byte>, field: nat, i: nat): nat
    requires i + 1 < |data|
  {
    if field <= i < field + 4 then 0 else Word(data[i], data[i + 1])
  }

  /** A word is its two bytes' little-endian number. */
  lemma WordIsLittle(data: seq<byte>, field: nat, i: nat)
    requires i + 1 < |data| && !(field <= i < field + 4)
    ensures WordAt(data, field, i) == Number(data[i..], 2)
  {
    assert data[i..][1..] == data[i + 1..];
    assert Number(data[i + 1..], 1) == data[i + 1] + 256 * Number(data[i + 1..][1..], 0);
  }

  /** The sum of the words from the start to an offset. */
  ghost function Words(data: seq<byte>, field: nat, i: nat): nat
    requires i <= |data| && i % 2 == 0
  {
    if i == 0 then 0 else Words(data, field, i - 2) + WordAt(data, field, i - 2)
  }

  /** All that is summed: the words, and the last byte of an odd length. */
  ghost function Sum(data: seq<byte>, field: nat): nat {
    if |data| % 2 == 0 then Words(data, field, |data|) else Words(data, field, |data| - 1) + data[|data| - 1]
  }

  /** A sum with the carries folded in: its residue by 65535 that is 0 only for 0. */
  function Residue(s: nat): nat { if s == 0 then 0 else (s - 1) % 65535 + 1 }

  /** Adds the carries of a sum to its low word. */
  function Fold(s: nat): nat { s % 0x1_0000 + s / 0x1_0000 }

  lemma FoldIsResidue(s: nat)
    requires s < 0x2_0000 - 1
    ensures Fold(s) == Residue(s) <= 0xFFFF
  {}

  lemma ZeroOnly(s: nat)
    ensures Residue(s) == 0 <==> s == 0
  {}

  lemma ResidueMore(s: nat, w: nat)
    ensures Residue(Residue(s) + w) == Residue(s + w)
  {
    if s > 0 {
      var k := (s - 1) / 65535;
      assert s + w - 1 == 65535 * k + (Residue(s) + w - 1);
      Shift(k, Residue(s) + w - 1);
    }
  }

  lemma {:induction false} Shift(k: nat, r: nat)
    ensures (65535 * k + r) % 65535 == r % 65535
  {
    if k > 0 { Shift(k - 1, r + 65535); }
  }

  /** One word more, and its carry. */
  lemma FoldedIn(s: nat, w: nat)
    requires w <= 0xFFFF
    ensures Fold(Residue(s) + w) == Residue(s + w) <= 0xFFFF
  {
    ResidueMore(s, w);
    FoldIsResidue(Residue(s) + w);
  }

  /** At the end the carries are folded in twice: once more does no harm. */
  lemma FoldedTwice(s: nat, w: nat)
    requires w <= 0xFFFF
    ensures Fold(Fold(Residue(s) + w)) == Residue(s + w)
  {
    FoldedIn(s, w);
    FoldedIn(s + w, 0);
  }

  ghost function Checksum(data: seq<byte>, field: nat): nat { Low32(|data| + Residue(Sum(data, field))) }

  method ComputeChecksum(data: seq<byte>, field: nat) returns (checksum: nat)
    ensures checksum == Checksum(data, field)
  {
    hide Residue, Fold, Low32;
    assert 0 == Residue(0) by { ZeroOnly(0); }
    var sum := 0;
    var i := 0;
    while i + 1 < |data|
      invariant i % 2 == 0 && i <= |data|
      invariant sum == Residue(Words(data, field, i))
    {
      if field <= i < field + 4 { i := i + 2; continue; }
      var w := Word(data[i], data[i + 1]);
      FoldedIn(Words(data, field, i), w);
      sum := Fold(sum + w);
      i := i + 2;
    }
    FoldedTwice(Words(data, field, i), if |data| % 2 != 0 then data[|data| - 1] else 0);
    if |data| % 2 != 0 { sum := sum + data[|data| - 1]; }
    sum := Fold(sum);
    sum := Fold(sum);
    checksum := Low32(sum + |data|);
  }

  // What the checksum depends on

  /** The same bytes but in the field. */
  ghost predicate Agree(a: seq<byte>, b: seq<byte>, field: nat) {
    |a| == |b| && forall i :: 0 <= i < |a| && !(field <= i < field + 4) ==> a[i] == b[i]
  }

  lemma SameLength(a: seq<byte>, b: seq<byte>, field: nat)
    requires Agree(a, b, field)
    ensures |a| == |b|
  {}

  lemma {:induction false} WordsAgree(a: seq<byte>, b: seq<byte>, field: nat, i: nat)
    requires Agree(a, b, field) && field % 2 == 0 && i <= |a| && i % 2 == 0
    ensures Words(a, field, i) == Words(b, field, i)
  {
    if i > 0 {
      WordsAgree(a, b, field, i - 2);
      WholeWords(field, i - 2);
    }
  }

  /** A word is in the field with both its bytes or with neither. */
  lemma WholeWords(field: nat, i: nat)
    requires field % 2 == 0 && i % 2 == 0
    ensures field <= i < field + 4 <==> field <= i + 1 < field + 4
  {
    var f, w := field / 2, i / 2;
    assert field == 2 * f && i == 2 * w;
  }

  lemma SumsAgree(a: seq<byte>, b: seq<byte>, field: nat)
    requires Agree(a, b, field) && field % 2 == 0 && field + 4 <= |a|
    ensures Sum(a, field) == Sum(b, field)
  {
    var n := |a| - |a| % 2;
    WordsAgree(a, b, field, n);
    if n < |a| {
      WholeWords(field, n);
      assert a[n] == b[n];
    }
  }

  lemma {:induction false} WordsOfZeros(data: seq<byte>, field: nat, i: nat)
    requires i <= |data| && i % 2 == 0 && forall j :: 0 <= j < i ==> data[j] == 0
    ensures Words(data, field, i) == 0
  {
    if i > 0 { WordsOfZeros(data, field, i - 2); }
  }

  /** With the field at an odd offset, a word that starts before it counts its first byte. */
  lemma {:induction false} WordsOfOne(data: seq<byte>, field: nat, i: nat)
    requires field % 2 == 1 && field < i <= |data| && i % 2 == 0
    requires forall j :: 0 <= j < |data| ==> data[j] == if j == field then 1 else 0
    ensures Words(data, field, i) == 256
  {
    if i == field + 1 { WordsOfZeros(data, field, i - 2); } else { WordsOfOne(data, field, i - 2); }
  }

  lemma OddFieldCounts(n: nat, field: nat)
    requires field + 4 <= n && field % 2 == 1
    ensures exists a: seq<byte>, b: seq<byte> ::
              |a| == n && Agree(a, b, field) && Checksum(a, field) != Checksum(b, field)
  {
    var a: seq<byte> := seq(n, j => 0);
    var b: seq<byte> := seq(n, j => if j == field then 1 else 0);
    WordsOfZeros(a, field, n - n % 2);
    WordsOfOne(b, field, n - n % 2);
    assert Agree(a, b, field) && Sum(a, field) == 0 && Sum(b, field) == 256;
  }

  /** The checksum of an image does not depend on its checksum field's bytes if and only if the field is at an even
      offset, whatever the image's length. */
  lemma FieldLeftOut(n: nat, field: nat)
    requires field + 4 <= n
    ensures (forall a: seq<byte>, b: seq<byte> :: |a| == n && Agree(a, b, field) ==>
               Checksum(a, field) == Checksum(b, field))
       <==> field % 2 == 0
  {
    hide Sum, Agree, Residue, Low32;
    if field % 2 == 1 {
      OddFieldCounts(n, field);
    } else {
      forall a: seq<byte>, b: seq<byte> | |a| == n && Agree(a, b, field)
        ensures Checksum(a, field) == Checksum(b, field)
      {
        assert |a| == |b| by { SameLength(a, b, field); }
        SumsAgree(a, b, field);
      }
    }
  }

  /** Writing the checksum into the field leaves it right: an image holding its checksum still has that checksum. */
  ghost function WithField(data: seq<byte>, field: nat, value: nat): seq<byte>
    requires field + 4 <= |data|
  {
    data[field := value % 256][field + 1 := value / 0x100 % 256][field + 2 := value / 0x1_0000 % 256]
        [field + 3 := value / 0x100_0000 % 256]
  }

  lemma Stamped(data: seq<byte>, field: nat)
    requires field + 4 <= |data| && field % 2 == 0
    ensures Checksum(WithField(data, field, Checksum(data, field)), field) == Checksum(data, field)
  {
    var stamped := WithField(data, field, Checksum(data, field));
    assert Agree(data, stamped, field);
    FieldLeftOut(|data|, field);
  }
}
