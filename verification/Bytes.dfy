/** Bytes, and the small sequence vocabulary shared by the other modules. */
module Bytes {

  type Byte = b: int | 0 <= b < 256

  function Min(a: nat, b: nat): nat {
    if a <= b then a else b
  }

  function Zeros(n: nat): seq<Byte> {
    seq(n, _ => 0)
  }

  /** The concatenation of a sequence of sequences, in order. */
  function Flatten<T>(parts: seq<seq<T>>): seq<T> {
    if parts == [] then [] else Flatten(parts[..|parts| - 1]) + parts[|parts| - 1]
  }

  lemma FlattenSnoc<T>(parts: seq<seq<T>>, last: seq<T>)
    ensures Flatten(parts + [last]) == Flatten(parts) + last
  {
    assert (parts + [last])[..|parts|] == parts;
  }

  /** `s` with `data` stored over the span that starts at `at`. */
  function Splice(s: seq<Byte>, at: nat, data: seq<Byte>): (t: seq<Byte>)
    requires at + |data| <= |s|
    ensures |t| == |s|
  {
    seq(|s|, i requires 0 <= i < |s| => if at <= i < at + |data| then data[i - at] else s[i])
  }

  /** Two adjacent spans are one. */
  lemma SpliceTwice(s: seq<Byte>, at: nat, first: seq<Byte>, second: seq<Byte>)
    requires at + |first| + |second| <= |s|
    ensures Splice(Splice(s, at, first), at + |first|, second) == Splice(s, at, first + second)
  {
  }
}
