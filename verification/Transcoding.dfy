/** Changing the base of a numeral while keeping its leading zeros one for one. */
module Transcoding {
  import opened Bytes
  import opened Numerals

  function LeadingZeroCount(ds: seq<nat>): (n: nat)
    ensures n <= |ds| && (n < |ds| ==> ds[n] != 0)
    ensures forall i :: 0 <= i < n ==> ds[i] == 0
  {
    if ds == [] || ds[0] != 0 then 0 else 1 + LeadingZeroCount(ds[1..])
  }

  function Transcode(from: nat, to: nat, ds: seq<nat>): seq<nat>
    requires to > 1
  {
    Zeros(LeadingZeroCount(ds)) + Digits(to, Value(from, ds))
  }

  lemma {:induction false} CountOfPrefix(n: nat, core: seq<nat>)
    requires core != [] ==> core[0] != 0
    ensures LeadingZeroCount(Zeros(n) + core) == n
  {
    if n > 0 {
      assert (Zeros(n) + core)[1..] == Zeros(n - 1) + core;
      CountOfPrefix(n - 1, core);
    } else {
      assert Zeros(n) + core == core;
    }
  }

  /** Transcoding there and back is the identity, in either direction. */
  lemma TranscodeBack(from: nat, to: nat, ds: seq<nat>)
    requires from > 1 && to > 1 && AreDigits(from, ds)
    ensures AreDigits(to, Transcode(from, to, ds))
    ensures Transcode(to, from, Transcode(from, to, ds)) == ds
  {
    var n := LeadingZeroCount(ds);
    var core := ds[n..];
    var v := Value(from, ds);
    assert ds == Zeros(n) + core;
    LeadingZeros(from, Zeros(n), core);
    DigitsValue(to, v);
    CountOfPrefix(n, Digits(to, v));
    LeadingZeros(to, Zeros(n), Digits(to, v));
    DigitsUnique(from, core);
  }
}
