/** The unit `human_size` prints a byte count in: the size is divided by
    1024 until it drops below 1024, through B, KB, MB, GB and TB, and
    whatever is still 1024 TB or more is shown in PB.  The number itself is
    the byte count divided by the returned scale. */
module Display {
  const Units: seq<string> := ["B", "KB", "MB", "GB", "TB"]
  const Largest := "PB"

  function Pow1024(k: nat): (p: nat)
    ensures p >= 1
  {
    if k == 0 then 1 else 1024 * Pow1024(k - 1)
  }

  /** The position, from `k` on, of the first unit whose next power of 1024
      exceeds `n`; 5 stands for PB. */
  function UnitIndex(n: nat, k: nat): nat
    requires k <= |Units|
    decreases |Units| - k
  {
    if k == |Units| then |Units|
    else if n < Pow1024(k + 1) then k
    else UnitIndex(n, k + 1)
  }

  function UnitName(i: nat): string
    requires i <= |Units|
  {
    if i < |Units| then Units[i] else Largest
  }

  /** The unit `human_size(numBytes)` prints and the power of 1024 the
      printed number is `numBytes` divided by. */
  method HumanUnit(numBytes: nat) returns (unit: string, scale: nat)
    ensures unit == UnitName(UnitIndex(numBytes, 0))
    ensures scale == Pow1024(UnitIndex(numBytes, 0))
  {
    // `size` is numBytes / scale, and `size < 1024.0` is numBytes < 1024 * scale
    scale := 1;
    for i := 0 to |Units|
      invariant scale == Pow1024(i)
      invariant UnitIndex(numBytes, 0) == UnitIndex(numBytes, i)
    {
      if numBytes < 1024 * scale {
        return Units[i], scale;
      }
      scale := scale * 1024;
    }
    return Largest, scale;
  }

  /** The unit is the one whose range holds the size: below 1024 of it, and
      (past bytes) at least one of it; PB takes everything from 1024 TB on. */
  lemma UnitBounds(n: nat)
    ensures var i := UnitIndex(n, 0);
            i <= |Units|
            && (i < |Units| ==> n < Pow1024(i + 1))
            && (i > 0 ==> Pow1024(i) <= n)
  {
    UnitBoundsFrom(n, 0);
  }

  lemma {:induction false} UnitBoundsFrom(n: nat, k: nat)
    requires k <= |Units| && (k == 0 || Pow1024(k) <= n)
    ensures var i := UnitIndex(n, k);
            k <= i <= |Units|
            && (i < |Units| ==> n < Pow1024(i + 1))
            && (i > 0 ==> Pow1024(i) <= n)
    decreases |Units| - k
  {
    if k < |Units| && n >= Pow1024(k + 1) {
      UnitBoundsFrom(n, k + 1);
    }
  }

  /** Those bounds pin the unit down: no other unit's range holds the
      size. */
  lemma UnitCharacterised(n: nat, j: nat)
    requires j <= |Units|
    requires j < |Units| ==> n < Pow1024(j + 1)
    requires j > 0 ==> Pow1024(j) <= n
    ensures UnitIndex(n, 0) == j
  {
    UnitBounds(n);
    var i := UnitIndex(n, 0);
    if i < j {
      Pow1024Monotone(i + 1, j);
    } else if j < i {
      Pow1024Monotone(j + 1, i);
    }
  }

  lemma {:induction false} Pow1024Monotone(a: nat, b: nat)
    requires a <= b
    ensures Pow1024(a) <= Pow1024(b)
    decreases b
  {
    if a < b {
      Pow1024Monotone(a, b - 1);
    }
  }

  /** 1536 bytes are shown in KB (as 1.5), 1023 bytes in B. */
  lemma UnitExamples()
    ensures UnitName(UnitIndex(1536, 0)) == "KB" && Pow1024(UnitIndex(1536, 0)) == 1024
    ensures UnitName(UnitIndex(1023, 0)) == "B"
  {
    UnitCharacterised(1536, 1);
    UnitCharacterised(1023, 0);
  }
}
