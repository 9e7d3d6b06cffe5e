/** C strings without their terminator, and strcmp on them (package/tester1/settings.cpp:24-26). */
module Strcmp {

  /** Characters are compared as unsigned char. */
  type Key = seq<bv8>

  /** The sign of strcmp: the terminator of the shorter string compares below every character. */
  function Cmp(a: Key, b: Key): int {
    if a == [] && b == [] then 0
    else if a == [] then -1
    else if b == [] then 1
    else if a[0] != b[0] then if a[0] < b[0] then -1 else 1
    else Cmp(a[1..], b[1..])
  }

  predicate Less(a: Key, b: Key) {
    Cmp(a, b) < 0
  }

  /** strcmp in words: at the first place `k` where the strings differ, the smaller character or the end of the string
      comes first. */
  lemma {:induction false} CmpIsFirstDifference(a: Key, b: Key) returns (k: nat)
    ensures k <= |a| && k <= |b| && a[..k] == b[..k] && (k < |a| && k < |b| ==> a[k] != b[k])
    ensures Cmp(a, b) == 0 <==> k == |a| == |b|
    ensures Cmp(a, b) < 0 <==> k < |b| && (k == |a| || a[k] < b[k])
    ensures Cmp(a, b) > 0 <==> k < |a| && (k == |b| || a[k] > b[k])
  {
    if a == [] || b == [] || a[0] != b[0] {
      k := 0;
    } else {
      k := CmpIsFirstDifference(a[1..], b[1..]);
      k := k + 1;
      assert a[..k] == [a[0]] + a[1..][..k - 1] && b[..k] == [b[0]] + b[1..][..k - 1];
    }
  }

  lemma {:induction false} CmpAntisymmetric(a: Key, b: Key)
    ensures Cmp(a, b) < 0 <==> Cmp(b, a) > 0
    ensures Cmp(a, b) == 0 <==> a == b
  {
    if a != [] && b != [] && a[0] == b[0] {
      CmpAntisymmetric(a[1..], b[1..]);
      assert a == [a[0]] + a[1..] && b == [b[0]] + b[1..];
    }
  }

  lemma {:induction false} LessTransitive(a: Key, b: Key, c: Key)
    requires Less(a, b) && Less(b, c)
    ensures Less(a, c)
  {
    if a != [] && b != [] && c != [] && a[0] == b[0] && b[0] == c[0] {
      LessTransitive(a[1..], b[1..], c[1..]);
    }
  }
}
