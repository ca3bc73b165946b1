/** The test helper `LargeStringGenerator.generateLargeString`: a string of
    spaces whose length is `megabytes * 1024 * 1024` evaluated in Java `int`
    arithmetic, so the product wraps around for 2048 megabytes and more. */
module LargeString {
  import opened Int32

  /** The loop bound `megabytes * 1024 * 1024`, multiplied left to right. */
  function Bound(megabytes: int32): int32 {
    Mul(Mul(megabytes, 1024), 1024)
  }

  /** The number of characters the loop appends: the bound when positive,
      none otherwise. */
  function Length(megabytes: int32): nat {
    if Bound(megabytes) > 0 then Bound(megabytes) else 0
  }

  /** `generateLargeString(megabytes)`: up to 2047 megabytes the string is
      exactly that many mebibytes of spaces; zero and small negative counts
      give the empty string. */
  method GenerateLargeString(megabytes: int32) returns (s: string)
    ensures |s| == Length(megabytes)
    ensures forall k :: 0 <= k < |s| ==> s[k] == ' '
    ensures 0 <= megabytes < 2048 ==> |s| == megabytes * 1024 * 1024
    ensures -2048 <= megabytes <= 0 ==> s == ""
  {
    var sb := "";
    var i: int32 := 0;
    while i < Mul(Mul(megabytes, 1024), 1024)
      invariant 0 <= i <= Length(megabytes)
      invariant |sb| == i
      invariant forall k :: 0 <= k < |sb| ==> sb[k] == ' '
      decreases Length(megabytes) - i
    {
      sb := sb + " ";
      i := i + 1;
    }
    s := sb;
    BoundIsWrappedProduct(megabytes);
  }

  /** The bound is the exact product of `megabytes` and 2^20, wrapped once
      into the `int` range. */
  lemma BoundIsWrappedProduct(megabytes: int32)
    ensures Bound(megabytes) == Wrap(megabytes * 0x10_0000)
    ensures 0 <= megabytes < 2048 ==> Length(megabytes) == megabytes * 0x10_0000
    ensures -2048 <= megabytes <= 0 ==> Length(megabytes) == 0
  {
    MulMulWrap(megabytes, 1024, 1024);
    var k := WrapSpec(megabytes * 0x10_0000);
    if 0 <= megabytes < 2048 {
      assert InRange(megabytes * 0x10_0000);
    } else if -2048 <= megabytes < 0 {
      assert InRange(megabytes * 0x10_0000);
    }
  }

  /** The product overflows outside [-2048, 2047]: 2048 wraps to -2^31 and
      gives the empty string, 4096 wraps to 0, 5120 wraps to 2^30 (1024
      megabytes' worth), and -2049 wraps to a positive bound, 2047 megabytes'
      worth of spaces for a negative count. */
  lemma OverflowExamples()
    ensures Bound(2048) == MIN && Length(2048) == 0
    ensures Bound(4096) == 0 && Length(4096) == 0
    ensures Bound(5120) == 0x4000_0000 && Length(5120) == Length(1024)
    ensures Bound(-2049) == 0x7FF0_0000 && Length(-2049) == Length(2047)
  {
    assert Mul(2048, 1024) == 0x20_0000 && Mul(4096, 1024) == 0x40_0000 && Mul(5120, 1024) == 0x50_0000;
    assert Mul(-2049, 1024) == -0x20_0400 && Mul(1024, 1024) == 0x10_0000 && Mul(2047, 1024) == 0x1F_FC00;
  }
}
