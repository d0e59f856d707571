/** Big-endian octet strings and the integers they stand for (I2OSP and OS2IP). */
module Octets {

  type byte = b: int | 0 <= b < 256

  function Pow256(n: nat): nat {
    if n == 0 then 1 else 256 * Pow256(n - 1)
  }

  /** The integer of a big-endian octet string. */
  function ToInt(s: seq<byte>): nat {
    if s == [] then 0 else 256 * ToInt(s[..|s| - 1]) + s[|s| - 1]
  }

  /** The low octets of v, in exactly size octets. */
  function Fixed(v: nat, size: nat): (s: seq<byte>)
    ensures |s| == size
  {
    if size == 0 then [] else Fixed(v / 256, size - 1) + [v % 256]
  }

  /** The shortest octet string of v; empty for zero. */
  function Minimal(v: nat): seq<byte> {
    if v == 0 then [] else Minimal(v / 256) + [v % 256]
  }

  lemma {:induction false} Pow256Positive(n: nat)
    ensures Pow256(n) > 0
  {
    if n > 0 {
      Pow256Positive(n - 1);
    }
  }

  lemma {:induction false} ToIntBound(s: seq<byte>)
    ensures ToInt(s) < Pow256(|s|)
    decreases |s|
  {
    if s != [] {
      ToIntBound(s[..|s| - 1]);
    }
  }

  /** A value that fits comes back. */
  lemma {:induction false} FixedRoundTrip(v: nat, size: nat)
    requires v < Pow256(size)
    ensures ToInt(Fixed(v, size)) == v
    decreases size
  {
    if size > 0 {
      FixedRoundTrip(v / 256, size - 1);
      assert Fixed(v, size)[..size - 1] == Fixed(v / 256, size - 1);
    }
  }

  /** Every octet string is the fixed-width form of its integer. */
  lemma {:induction false} ToIntRoundTrip(s: seq<byte>)
    ensures Fixed(ToInt(s), |s|) == s
    decreases |s|
  {
    if s != [] {
      ToIntRoundTrip(s[..|s| - 1]);
      assert s == s[..|s| - 1] + [s[|s| - 1]];
    }
  }

  function Zeros(n: nat): seq<byte> {
    seq(n, i => 0)
  }

  /** Padding the shortest form, or keeping its last octets, gives the fixed form. */
  lemma {:induction false} FixedFromMinimal(v: nat, size: nat)
    ensures var raw := Minimal(v);
            Fixed(v, size) == if |raw| > size then raw[|raw| - size..] else Zeros(size - |raw|) + raw
    decreases size
  {
    var raw := Minimal(v);
    if size == 0 {
      assert |raw| > 0 ==> raw[|raw|..] == [];
    } else if v == 0 {
      FixedFromMinimal(0, size - 1);
      assert Zeros(size) == Zeros(size - 1) + [0];
    } else {
      FixedFromMinimal(v / 256, size - 1);
      var shorter := Minimal(v / 256);
      if |raw| > size {
        assert raw[|raw| - size..] == shorter[|shorter| - (size - 1)..] + [v % 256];
      } else {
        assert Zeros(size - |raw|) + raw == (Zeros(size - 1 - |shorter|) + shorter) + [v % 256];
      }
    }
  }

  lemma PaddedIs(s: seq<byte>, at: nat, raw: seq<byte>)
    requires |s| == at + |raw|
    requires forall j :: 0 <= j < at ==> s[j] == 0
    requires forall j :: 0 <= j < |raw| ==> s[at + j] == raw[j]
    ensures s == Zeros(at) + raw
  {
    forall j | at <= j < |s| ensures s[j] == raw[j - at] {
      assert s[at + (j - at)] == raw[j - at];
    }
  }

  /** Copies the shortest form, cut to its last octets, into a zeroed buffer. */
  method FixedWidthInt(v: nat, size: nat) returns (out: array<byte>)
    ensures fresh(out) && out[..] == Fixed(v, size)
  {
    hide Fixed, Minimal, Zeros;
    out := new byte[size](i => 0);
    var raw := Minimal(v);
    FixedFromMinimal(v, size);
    if |raw| > size {
      raw := raw[|raw| - size..];
    }
    var at := size - |raw|;
    for i := 0 to |raw|
      invariant forall j :: 0 <= j < at ==> out[j] == 0
      invariant forall j :: 0 <= j < i ==> out[at + j] == raw[j]
    {
      out[at + i] := raw[i];
    }
    PaddedIs(out[..], at, raw);
  }
}
